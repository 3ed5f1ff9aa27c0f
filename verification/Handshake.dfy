/** How a channel comes about: requests, refusals that do not refuse, and the handshake that starts the two-ended
    system. */
module Handshakes {
  import opened Bytes
  import opened ChannelStates
  import opened Segmentation
  import opened Connections
  import opened EndToEnd
  import opened WireSystem
  import opened WireRuns
  import C = CreditSystem
  import F = Frames
  import S = Signalling

  /** A request as it arrives. */
  function RequestBytes(p: S.SignallingPacket): seq<Byte>
    requires p.LEConnectionRequest?
  {
    PduOf(F.CID_SIGNALLING_LEU, S.Marshal(p).value)
  }

  /** Every connection request is accepted, whatever it asks for: the channel takes the peer's MPS and credits as they
      are and an identifier is used up. Whether it was also refused can be read off the request and the channels
      registered so far. */
  lemma RequestsAreAlwaysAccepted(s: ConnState, p: S.SignallingPacket)
    requires p.LEConnectionRequest?
    ensures var (t, out) := HandlePdu(s, RequestBytes(p));
            && out.Requested? && out.id == p.id
            && out.chan.rxCID == s.next && out.chan.txCID == p.scid
            && out.chan.txMPS == p.mps && out.chan.txCredits == p.credits
            && out.chan == Offered(s, p)
            && t == s.(next := Wrap16(s.next as int + 1))
            && (out.refusals == [] <==>
                  p.mtu >= 23 && 23 <= p.mps <= 65533 && p.scid >= F.CID_FIRST_DYNAMIC && |s.cocs| != 0xFFC0
                  && forall k :: k in s.cocs ==> s.cocs[k].txCID != p.scid)
  {
    S.SignallingRoundTrip(p);
    S.LayoutReads(S.Opcode(p), p.id, S.LengthField(p), S.Fields(p), S.Tail(p));
    var payload := S.Marshal(p).value;
    F.FrameRoundTrip(F.BFrame(F.CID_SIGNALLING_LEU, payload));
    F.HeaderBytes(|payload|, F.CID_SIGNALLING_LEU, payload);
    NobodyElse(s, p.scid);
  }

  lemma NobodyElse(s: ConnState, cid: Uint16)
    ensures |WithTxCID(s, cid)| == 0 <==> forall k :: k in s.cocs ==> s.cocs[k].txCID != cid
  {
    if |WithTxCID(s, cid)| == 0 {
      assert WithTxCID(s, cid) == {};
      forall k | k in s.cocs ensures s.cocs[k].txCID != cid {
        assert k !in WithTxCID(s, cid);
      }
    }
    assert (forall k :: k in s.cocs ==> s.cocs[k].txCID != cid) ==> WithTxCID(s, cid) == {};
  }

  /** The peer reads the response as it was written. */
  lemma ResponseArrives(p: S.SignallingPacket)
    requires p.LEConnectionResponse?
    ensures var payload := ResponseBytes(p);
            && ReadFrame(PduOf(F.CID_SIGNALLING_LEU, payload)) == Ok(F.BFrame(F.CID_SIGNALLING_LEU, payload))
            && S.Unmarshal(payload) == Ok(p)
  {
    S.SignallingRoundTrip(p);
    F.FrameRoundTrip(F.BFrame(F.CID_SIGNALLING_LEU, ResponseBytes(p)));
  }

  function ResponseBytes(p: S.SignallingPacket): (b: seq<Byte>)
    requires p.LEConnectionResponse?
    ensures |b| == 14
  {
    S.LayoutReads(0x15, p.id, S.LengthField(p), S.Fields(p), S.Tail(p));
    S.Marshal(p).value
  }

  /** The response Approve writes. */
  function ApprovalPdu(id: Byte, c: ChannelState): seq<Byte> {
    PduOf(F.CID_SIGNALLING_LEU, ResponseBytes(ApprovalResponse(id, c)))
  }

  /** What a peer reads from a PDU it takes for a response. */
  function ReadResponse(pdu: seq<Byte>): Result<S.SignallingPacket> {
    match ReadFrame(pdu)
    case Ok(BFrame(cid, payload)) =>
      if cid == F.CID_SIGNALLING_LEU then S.Unmarshal(payload) else Err(UnhandledPacket)
    case _ => Err(UnhandledPacket)
  }

  /** The end that runs this code: its connection, in whatever state, has been offered a channel by the request and
      approved it with its own MTU. */
  function Acceptor(start: ConnState, rxMTU: Uint16, request: S.SignallingPacket): Node
    requires request.LEConnectionRequest?
  {
    var offered := start.(next := Wrap16(start.next as int + 1));
    Node(ConnNext(offered, Approval(Offered(start, request), rxMTU)), map[start.next := Line([], [])], 0)
  }

  /** That is what handling the bytes of the request, and then the approval, make of it. */
  lemma AcceptorHandles(start: ConnState, rxMTU: Uint16, request: S.SignallingPacket)
    requires request.LEConnectionRequest?
    ensures var (conn, out) := HandlePdu(start, RequestBytes(request));
            out.Requested? && Acceptor(start, rxMTU, request).conn == ConnNext(conn, Approval(out.chan, rxMTU))
  {
    RequestsAreAlwaysAccepted(start, request);
  }

  /** The channel that end then has. */
  function Accepting(start: ConnState, rxMTU: Uint16, request: S.SignallingPacket): ChannelState
    requires request.LEConnectionRequest?
  {
    ChannelState(start.next, request.scid, request.mps, if rxMTU > MAX_RX_MPS then MAX_RX_MPS else rxMTU, rxMTU,
                 request.credits, INITIAL_CREDITS, [], 0, [])
  }

  function Requesting(request: S.SignallingPacket, response: S.SignallingPacket): ChannelState
    requires request.LEConnectionRequest? && response.LEConnectionResponse?
  {
    ChannelState(request.scid, response.dcid, response.mps, request.mps, request.mtu, response.credits, request.credits,
                 [], 0, [])
  }

  /** The end that sent the request. If what it reads is a response to that request, and a success, then it has a
      channel: it receives within the limits and credits it asked for, and sends within those it read. */
  function Initiator(request: S.SignallingPacket, pdu: seq<Byte>): Node
    requires request.LEConnectionRequest?
  {
    var r := ReadResponse(pdu);
    var granted := r.Ok? && r.value.LEConnectionResponse? && r.value.id == request.id && r.value.result == 0;
    var cocs := if granted then map[request.scid := Requesting(request, r.value)] else map[];
    Node(ConnState(cocs, request.scid), map[request.scid := Line([], [])], 0)
  }

  /** The two ends once the response has been read, nothing yet on the wires. */
  function Handshake(start: ConnState, rxMTU: Uint16, request: S.SignallingPacket): Net
    requires request.LEConnectionRequest?
  {
    AcceptorIs(start, rxMTU, request);
    var acceptor := Acceptor(start, rxMTU, request);
    Net(Initiator(request, ApprovalPdu(request.id, acceptor.conn.cocs[start.next])), acceptor, [], [])
  }

  /** Both identifiers of the new channel can be routed, and nobody else on the accepting connection sends to the
      peer's. */
  predicate Unambiguous(start: ConnState, scid: Uint16) {
    && Routable(scid) && Routable(start.next)
    && forall k :: k in start.cocs && k != start.next ==> start.cocs[k].txCID != scid
  }

  /** The channel between them. */
  function Opened(start: ConnState, request: S.SignallingPacket): Link
    requires request.LEConnectionRequest?
  {
    Link(request.scid, start.next)
  }

  /** Any request at all, accepted by a connection in any state: the handshake leads to the system the theorems start
      from exactly when its identifiers are unambiguous. In it the accepting end's window stands at 500 and the
      requesting end's at what the request brought, zero included; and each end may write precisely the SDUs that fit
      the other's MTU, as long as the MPS it has to keep to is at least 2 and its frames can be read at the far end. */
  lemma HandshakeOpens(start: ConnState, request: S.SignallingPacket, rxMTU: Uint16, sdu: seq<Byte>)
    requires request.LEConnectionRequest?
    ensures var n := Handshake(start, rxMTU, request); var l := Opened(start, request);
            && (Initial(n, {l}) <==> Unambiguous(start, request.scid))
            && (Initial(n, {l}) ==>
                  && Chan(n.left, l.left).rxCredits == request.credits && Chan(n.right, l.right).rxCredits == 500
                  && (Enabled(n, {l}, Write(C.Left, l, sdu)) <==> rxMTU >= 2 && |sdu| <= rxMTU)
                  && (Enabled(n, {l}, Write(C.Right, l, sdu)) <==>
                        request.mps >= 2 && |sdu| <= request.mtu && Min(request.mps, |sdu| + 2) <= MAX_PAYLOAD))
  {
    HandshakeJoined(start, rxMTU, request);
    LimitsSuffice(|sdu|, if rxMTU > MAX_RX_MPS then MAX_RX_MPS else rxMTU, rxMTU);
    LimitsSuffice(|sdu|, request.mps, request.mtu);
  }

  lemma HandshakeJoined(start: ConnState, rxMTU: Uint16, request: S.SignallingPacket)
    requires request.LEConnectionRequest?
    ensures var n := Handshake(start, rxMTU, request); var l := Opened(start, request);
            && n.left.conn.cocs.Keys == {l.left} && l.right in n.right.conn.cocs
            && n.right.conn.cocs[l.right] == Accepting(start, rxMTU, request)
            && n.left.conn.cocs[l.left]
               == Requesting(request, ApprovalResponse(request.id, Accepting(start, rxMTU, request)))
            && (Joined(n, l) <==> Unambiguous(start, request.scid))
  {
    AcceptorIs(start, rxMTU, request);
    ResponseArrives(ApprovalResponse(request.id, Accepting(start, rxMTU, request)));
    var n := Handshake(start, rxMTU, request);
    assert forall k :: k in start.cocs && k != start.next ==> n.right.conn.cocs[k] == start.cocs[k];
  }

  lemma LimitsSuffice(n: nat, mps: Uint16, mtu: Uint16)
    ensures Deliverable(n, mps, mps, mtu) <==> mps >= 2 && n <= mtu
  {
  }

  lemma AcceptorIs(start: ConnState, rxMTU: Uint16, request: S.SignallingPacket)
    requires request.LEConnectionRequest?
    ensures Acceptor(start, rxMTU, request).conn
         == ConnState(start.cocs[start.next := Accepting(start, rxMTU, request)], Wrap16(start.next as int + 1))
  {
  }

  // ------------------------------------------------------------------ one more channel

  /** An end with one more channel, on which nothing has been written. */
  function WithNew(n: Node, k: Uint16, c: ChannelState, next: Uint16): Node {
    Node(ConnState(n.conn.cocs[k := c], next), n.lines[k := Line([], [])], n.identifier)
  }

  /** A running system in which the left end has requested another channel and the right end has approved it. */
  function OneMore(n: Net, rxMTU: Uint16, request: S.SignallingPacket): Net
    requires request.LEConnectionRequest?
  {
    var accepting := Accepting(n.right.conn, rxMTU, request);
    var requesting := Requesting(request, ApprovalResponse(request.id, accepting));
    n.(left := WithNew(n.left, request.scid, requesting, n.left.conn.next),
       right := WithNew(n.right, n.right.conn.next, accepting, Wrap16(n.right.conn.next as int + 1)))
  }

  /** What that leaves the right end with is what its connection makes of the request and the approval. */
  lemma OneMoreIsHandled(n: Net, rxMTU: Uint16, request: S.SignallingPacket)
    requires request.LEConnectionRequest?
    ensures OneMore(n, rxMTU, request).right.conn == Acceptor(n.right.conn, rxMTU, request).conn
  {
    AcceptorIs(n.right.conn, rxMTU, request);
  }

  /** Both identifiers are new, routable, and sent to by nobody. */
  predicate NewLink(n: Net, l: Link) {
    && Routable(l.left) && Routable(l.right) && l.left !in n.left.conn.cocs && l.right !in n.right.conn.cocs
    && (forall k :: k in n.left.conn.cocs ==> n.left.conn.cocs[k].txCID != l.right)
    && (forall k :: k in n.right.conn.cocs ==> n.right.conn.cocs[k].txCID != l.left)
  }

  lemma OthersStayChannelled(n: Node, k: Uint16, c: ChannelState, j: Uint16, peer: Uint16, next: Uint16)
    requires Channelled(n, j, peer) && k !in n.conn.cocs && c.txCID != peer
    ensures var m := WithNew(n, k, c, next);
            Channelled(m, j, peer) && EndpointOf(m, j) == EndpointOf(n, j)
  {
  }

  /** Nothing on a wire is meant for a channel that was not there. */
  lemma {:induction false} NothingForTheNew(pdus: seq<seq<Byte>>, links: set<Link>, l: Link)
    requires Understood(pdus, links) && Routable(l.right)
    requires forall m :: m in links ==> m.left != l.left && m.right != l.right && Routable(m.right)
    requires forall m :: m in links ==> C.Disconnection !in Heard(pdus, m.right, m.left)
    ensures Heard(pdus, l.right, l.left) == []
    decreases |pdus|
  {
    if pdus != [] {
      assert Meant(pdus[0], links);
      var m :| m in links && Message(pdus[0], m.right, m.left) != [];
      HeadHeard(pdus, m.right, m.left);
      HeadHeard(pdus, l.right, l.left);
      MeantForOne(pdus[0], m, l);
      forall j | j in links ensures C.Disconnection !in Heard(pdus[1..], j.right, j.left) {
        HeadHeard(pdus, j.right, j.left);
      }
      NothingForTheNew(pdus[1..], links, l);
    }
  }

  lemma MeantForOne(pdu: seq<Byte>, m: Link, l: Link)
    requires Routable(m.right) && Routable(l.right) && m.left != l.left && m.right != l.right
    requires Message(pdu, m.right, m.left) != [] && C.Disconnection !in Message(pdu, m.right, m.left)
    ensures Message(pdu, l.right, l.left) == []
  {
  }

  /** A channel that is opened on a running connection starts as the theorems require and disturbs no other one: with
      new identifiers, the system with the channel added is again one whose every channel is in good order. */
  lemma {:induction false} OneMoreChannel(n: Net, links: set<Link>, rxMTU: Uint16, request: S.SignallingPacket)
    requires Good(n, links) && request.LEConnectionRequest?
    requires NewLink(n, Link(request.scid, n.right.conn.next))
    ensures var l := Link(request.scid, n.right.conn.next); var t := OneMore(n, rxMTU, request);
            && Good(t, links + {l}) && C.Initial(Project(t, l))
            && forall m :: m in links ==> Project(t, m) == Project(n, m)
  {
    var l := Link(request.scid, n.right.conn.next);
    var t := OneMore(n, rxMTU, request);
    forall m | m in links ensures Joined(t, m) && Project(t, m) == Project(n, m) {
      OtherUndisturbed(n, m, rxMTU, request);
    }
    NewJoined(n, rxMTU, request);
    NewIsInitial(n, links, l, t);
    C.InitialInvariant(Project(t, l));
    SpokenByMore(n, t, links, l);
    forall m | m in links + {l} ensures Joined(t, m) && C.Invariant(Project(t, m)) {
    }
  }

  lemma SpokenByMore(n: Net, t: Net, links: set<Link>, l: Link)
    requires Spoken(n, links) && t.toRight == n.toRight && t.toLeft == n.toLeft
    ensures Spoken(t, links + {l})
  {
    UnderstoodByMore(n.toRight, links, l);
    UnderstoodByMore(n.toLeft, Backs(links), Back(l));
    assert Backs(links + {l}) == Backs(links) + {Back(l)};
  }

  lemma NewJoined(n: Net, rxMTU: Uint16, request: S.SignallingPacket)
    requires request.LEConnectionRequest? && NewLink(n, Link(request.scid, n.right.conn.next))
    ensures var l := Link(request.scid, n.right.conn.next); var t := OneMore(n, rxMTU, request);
            && Joined(t, l) && C.Fresh(EndpointOf(t.left, l.left)) && C.Fresh(EndpointOf(t.right, l.right))
            && Chan(t.left, l.left).txCredits == Chan(t.right, l.right).rxCredits
            && Chan(t.right, l.right).txCredits == Chan(t.left, l.left).rxCredits
  {
  }

  lemma OtherUndisturbed(n: Net, m: Link, rxMTU: Uint16, request: S.SignallingPacket)
    requires Joined(n, m) && request.LEConnectionRequest?
    requires NewLink(n, Link(request.scid, n.right.conn.next))
    ensures var t := OneMore(n, rxMTU, request);
            m != Link(request.scid, n.right.conn.next) && Joined(t, m) && Project(t, m) == Project(n, m)
  {
    var accepting := Accepting(n.right.conn, rxMTU, request);
    var requesting := Requesting(request, ApprovalResponse(request.id, accepting));
    OthersStayChannelled(n.left, request.scid, requesting, m.left, m.right, n.left.conn.next);
    OthersStayChannelled(n.right, n.right.conn.next, accepting, m.right, m.left, Wrap16(n.right.conn.next as int + 1));
  }

  lemma UnderstoodByMore(pdus: seq<seq<Byte>>, links: set<Link>, l: Link)
    requires Understood(pdus, links)
    ensures Understood(pdus, links + {l})
  {
    forall pdu | pdu in pdus ensures Meant(pdu, links + {l}) {
      assert Meant(pdu, links);
      var m :| m in links && Message(pdu, m.right, m.left) != [];
      assert m in links + {l};
    }
  }

  lemma NewIsInitial(n: Net, links: set<Link>, l: Link, t: Net)
    requires Good(n, links) && NewLink(n, l) && Joined(t, l)
    requires t.toRight == n.toRight && t.toLeft == n.toLeft
    requires C.Fresh(EndpointOf(t.left, l.left)) && C.Fresh(EndpointOf(t.right, l.right))
    requires Chan(t.left, l.left).txCredits == Chan(t.right, l.right).rxCredits
    requires Chan(t.right, l.right).txCredits == Chan(t.left, l.left).rxCredits
    ensures C.Initial(Project(t, l))
  {
    forall m | m in links ensures C.Disconnection !in Heard(n.toRight, m.right, m.left) {
      assert C.Orderly(Project(n, m));
    }
    NothingForTheNew(n.toRight, links, l);
    forall m | m in Backs(links) ensures C.Disconnection !in Heard(n.toLeft, m.right, m.left) {
      assert C.Orderly(C.Flip(Project(n, Back(m))));
    }
    NothingForTheNew(n.toLeft, Backs(links), Back(l));
  }
}
