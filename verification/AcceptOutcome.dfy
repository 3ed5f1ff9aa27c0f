/** What Accept makes of every PDU, byte for byte: what is ignored, what ends it and with which error, what a request is
    answered with, and what an approval tells the peer. */
module AcceptOutcomes {
  import opened Bytes
  import opened ChannelStates
  import opened Connections
  import opened EndToEnd
  import opened Handshakes
  import W = WireSystem
  import F = Frames
  import S = Signalling
  import X = WireFormats

  /** The PDU fits the read buffer and its length header is true; a group frame counts two bytes less. */
  predicate Whole(pdu: seq<Byte>) {
    4 <= |pdu| <= 65535 &&
    if Get16(pdu, 2) == 2 then |pdu| >= 6 && Get16(pdu, 0) as int == |pdu| - 6 else Get16(pdu, 0) as int == |pdu| - 4
  }

  /** A PDU that is not whole ends Accept with an error and changes nothing. Group frames and frames for unknown
      channels are ignored, and so are attribute requests, except for the empty one, which panics. Frames for a
      registered channel go to that channel and no other, and those for channel 5 to the signalling handler. */
  lemma PdusHandled(s: ConnState, pdu: seq<Byte>)
    ensures !Whole(pdu) ==> HandlePdu(s, pdu) == (s, Failed(ShortBuffer))
    ensures Whole(pdu) ==>
              HandlePdu(s, pdu) ==
                var cid := Get16(pdu, 2);
                if cid == 2 then (s, Ignored)
                else if cid == 4 then (s, if |pdu| == 4 then Failed(IndexOutOfRange) else Ignored)
                else if cid == 5 then HandleSignalling(s, pdu[4..])
                else if cid !in s.cocs then (s, Ignored)
                else (s.(cocs := s.cocs[cid := Receive(s.cocs[cid], pdu[4..]).0]),
                      Delivered(Receive(s.cocs[cid], pdu[4..]).1))
  {
    X.FramesRead(pdu);
  }

  /** A signalling packet that cannot be read, or that nothing handles, ends Accept with an error; a disconnection
      packet ends it too. None of them changes the connection. */
  lemma SignallingEnds(s: ConnState, payload: seq<Byte>)
    ensures X.Judge(payload).Refused? ==> HandleSignalling(s, payload) == (s, Failed(X.Judge(payload).error))
    ensures X.Judge(payload).Read? && payload[0] !in {0x06, 0x07, 0x14, 0x16} ==>
              HandleSignalling(s, payload) == (s, Failed(UnhandledPacket))
    ensures X.Judge(payload).Read? && payload[0] in {0x06, 0x07} ==> HandleSignalling(s, payload) == (s, TornDown)
  {
    X.SignallingJudged(payload);
    if X.Judge(payload).Read? {
      TypeByFirstByte(payload);
    }
  }

  lemma TypeByFirstByte(payload: seq<Byte>)
    requires S.Unmarshal(payload).Ok?
    ensures var p := S.Unmarshal(payload).value;
            && (p.LEConnectionRequest? <==> payload[0] == 0x14)
            && (p.CreditIndication? <==> payload[0] == 0x16)
            && (p.DisconnectionRequest? || p.DisconnectionResponse? <==> payload[0] in {0x06, 0x07})
  {
  }

  /** A credit indication goes to every channel that sends to the identifier it names and to no other; those it would
      take past 65535 keep what they have and are reported. */
  lemma IndicationsHandled(s: ConnState, id: Byte, cid: Uint16, n: Uint16)
    ensures var (t, out) := HandleSignalling(s, [0x16, id, 4, 0] + X.W(cid) + X.W(n));
            && t.next == s.next && t.cocs.Keys == s.cocs.Keys
            && (forall k :: k in s.cocs ==>
                  t.cocs[k] == if s.cocs[k].txCID == cid && s.cocs[k].txCredits + n <= 65535
                               then s.cocs[k].(txCredits := s.cocs[k].txCredits + n) else s.cocs[k])
            && out.Credited?
            && forall k :: k in out.overflowed <==>
                 k in s.cocs && s.cocs[k].txCID == cid && s.cocs[k].txCredits + n > 65535
  {
    var p := S.CreditIndication(id, cid, n);
    X.SignallingBytes(p);
    S.SignallingRoundTrip(p);
    assert forall k :: k in s.cocs ==> s.cocs[k].txCredits + n > 65535 ==> n > 0;
  }

  // ------------------------------------------------------------------ what an end writes

  /** A request to disconnect a channel, as it stands on the wire: the peer's identifier, then our own. */
  function DisconnectBytes(id: Byte, c: ChannelState): seq<Byte> {
    [8, 0, 5, 0] + ([0x06, id, 4, 0] + X.W(c.txCID) + X.W(c.rxCID))
  }

  /** A grant of 500 credits, as it stands on the wire. */
  function GrantBytes(id: Byte, c: ChannelState): seq<Byte> {
    [8, 0, 5, 0] + ([0x16, id, 4, 0] + X.W(c.rxCID) + X.W(500))
  }

  lemma SignalBytes(p: S.SignallingPacket, bytes: seq<Byte>)
    requires p.CreditIndication? || p.DisconnectionRequest?
    requires S.Marshal(p) == Ok(bytes) && |bytes| == 8
    ensures W.SignalPdu(p) == [8, 0, 5, 0] + bytes
  {
    X.FrameBytes(5, 0, bytes);
    assert X.W(8) + X.W(5) == [8, 0, 5, 0];
  }

  lemma AnsweredBytes(c: ChannelState, id: Byte)
    ensures W.Answered(c, id, RequestDisconnect) == [DisconnectBytes(id, c)]
    ensures W.Answered(c, id, GrantCredits(500)) == [GrantBytes(id, c)]
    ensures W.Answered(c, id, Quiet) == []
  {
    var request, grant := S.DisconnectionRequest(id, c.txCID, c.rxCID), S.CreditIndication(id, c.rxCID, 500);
    X.SignallingBytes(request);
    X.SignallingBytes(grant);
    SignalBytes(request, [0x06, id, 4, 0] + X.W(c.txCID) + X.W(c.rxCID));
    SignalBytes(grant, [0x16, id, 4, 0] + X.W(c.rxCID) + X.W(500));
  }

  /** A frame for a registered channel is answered with one request to disconnect if the channel refuses it; otherwise
      with one grant of 500 credits if the window stood at 71 or less, and with nothing if not. Each packet written uses
      up an identifier. */
  lemma FrameAnswered(n: W.Node, k: Uint16, payload: seq<Byte>)
    requires k in n.conn.cocs && Routable(k) && |payload| <= 65531
    ensures var c := n.conn.cocs[k]; var pdu := PduOf(k, payload);
            && W.Replies(n, pdu) ==
                 (if Receive(c, payload).1 == RequestDisconnect then [DisconnectBytes(n.identifier, c)]
                  else if c.rxCredits <= 71 then [GrantBytes(n.identifier, c)]
                  else [])
            && W.Handled(n, pdu).identifier as int == (n.identifier + |W.Replies(n, pdu)|) % 256
  {
    var c := n.conn.cocs[k];
    F.FrameRoundTrip(F.BFrame(k, payload));
    F.HeaderBytes(|payload|, k, payload);
    assert ReadFrame(PduOf(k, payload)) == Ok(F.BFrame(k, payload));
    AnsweredBytes(c, n.identifier);
    if Receive(c, payload).1 != RequestDisconnect {
      AcceptedFrameCredits(c, payload);
    }
  }

  /** Somewhere among the PDUs is the channel's request to disconnect, under the identifier of its place. */
  predicate Disconnects(pdus: seq<seq<Byte>>, c: ChannelState, id: Byte) {
    exists i :: 0 <= i < |pdus| && pdus[i] == DisconnectBytes((id + i) % 256, c)
  }

  lemma NextPlace(id: int, i: int)
    ensures ((id + 1) % 256 + i) % 256 == (id + (i + 1)) % 256
  {
  }

  lemma DisconnectsLater(pdu: seq<Byte>, pdus: seq<seq<Byte>>, c: ChannelState, id: Byte)
    requires Disconnects(pdus, c, (id + 1) % 256)
    ensures Disconnects([pdu] + pdus, c, id)
  {
    var i :| 0 <= i < |pdus| && pdus[i] == DisconnectBytes(((id + 1) % 256 + i) % 256, c);
    NextPlace(id, i);
    assert ([pdu] + pdus)[i + 1] == DisconnectBytes((id + (i + 1)) % 256, c);
  }

  lemma DisconnectsNow(pdus: seq<seq<Byte>>, c: ChannelState, id: Byte)
    ensures Disconnects([DisconnectBytes(id, c)] + pdus, c, id)
  {
    assert ([DisconnectBytes(id, c)] + pdus)[0] == DisconnectBytes((id + 0) % 256, c);
  }

  /** An indication is answered with one request to disconnect for each channel whose credits it would take past 65535,
      each under an identifier of its own. */
  lemma {:induction false} OverflowsAnswered(cocs: map<Uint16, ChannelState>, ks: set<Uint16>, id: Byte)
    requires ks <= cocs.Keys
    ensures |W.Refused(cocs, ks, id)| == |ks|
    ensures forall k :: k in ks ==> Disconnects(W.Refused(cocs, ks, id), cocs[k], id)
    decreases ks
  {
    if ks != {} {
      var k := W.RefusedFirst(cocs, ks, id);
      var rest := W.Refused(cocs, ks - {k}, (id + 1) % 256);
      AnsweredBytes(cocs[k], id);
      DisconnectsNow(rest, cocs[k], id);
      OverflowsAnswered(cocs, ks - {k}, (id + 1) % 256);
      forall j | j in ks - {k} ensures Disconnects([DisconnectBytes(id, cocs[k])] + rest, cocs[j], id) {
        DisconnectsLater(DisconnectBytes(id, cocs[k]), rest, cocs[j], id);
      }
    }
  }

  // ------------------------------------------------------------------ requests

  /** The request as it stands on the wire. */
  function Request(id: Byte, spsm: Uint16, scid: Uint16, mtu: Uint16, mps: Uint16, credits: Uint16): seq<Byte> {
    [0x14, id, 10, 0] + X.W(spsm) + X.W(scid) + X.W(mtu) + X.W(mps) + X.W(credits)
  }

  /** Every request makes a channel with the next identifier, the peer's identifier, MPS and credits, no limits and no
      credits of its own yet. */
  lemma RequestsHandled(s: ConnState, id: Byte, spsm: Uint16, scid: Uint16, mtu: Uint16, mps: Uint16, credits: Uint16)
    ensures var (t, out) := HandleSignalling(s, Request(id, spsm, scid, mtu, mps, credits));
            && t == s.(next := (s.next as int + 1) % 65536)
            && out.Requested? && out.id == id
            && out.chan == ChannelState(s.next, scid, mps, 0, 0, credits, 0, [], 0, [])
  {
    var p := S.LEConnectionRequest(id, spsm, scid, mtu, mps, credits);
    X.SignallingBytes(p);
    S.SignallingRoundTrip(p);
  }

  /** The channels that already send to an identifier. */
  function Senders(s: ConnState, cid: Uint16): set<Uint16> {
    set k | k in s.cocs && s.cocs[k].txCID == cid
  }

  /** A refusal with its result code. */
  function Refused(id: Byte, result: Uint16): S.SignallingPacket {
    S.LEConnectionResponse(id, 0, 0, 0, 0, result)
  }

  /** Which refusals are written for it, in order and under the request's identifier: unacceptable parameters (0x000B),
      no resources (0x0004), an invalid source identifier (0x0009), and one for an identifier in use (0x000A) for every
      channel that uses it. */
  lemma RequestsRefused(s: ConnState, id: Byte, spsm: Uint16, scid: Uint16, mtu: Uint16, mps: Uint16, credits: Uint16)
    ensures var out := HandleSignalling(s, Request(id, spsm, scid, mtu, mps, credits)).1;
            var fixed := (if mtu < 23 || mps < 23 || mps > 65533 then [Refused(id, 0x000B)] else [])
                         + (if |s.cocs| == 65472 then [Refused(id, 0x0004)] else [])
                         + (if scid <= 63 then [Refused(id, 0x0009)] else []);
            && out.Requested? && |out.refusals| == |fixed| + |Senders(s, scid)|
            && out.refusals[..|fixed|] == fixed
            && forall i :: |fixed| <= i < |out.refusals| ==> out.refusals[i] == Refused(id, 0x000A)
  {
    var p := S.LEConnectionRequest(id, spsm, scid, mtu, mps, credits);
    X.SignallingBytes(p);
    S.SignallingRoundTrip(p);
    assert Senders(s, scid) == WithTxCID(s, scid);
    assert Repeat(Refused(id, 0x000A), |Senders(s, scid)|) == Repeat(Refusal(id, 0x000A), |WithTxCID(s, scid)|);
  }

  /** And the peer reads each of them as it was written. */
  lemma RefusalsArrive(id: Byte, result: Uint16)
    ensures S.Marshal(Refused(id, result)).Ok?
    ensures S.Unmarshal([0x15, id, 10, 0, 0, 0, 0, 0, 0, 0, 0, 0] + X.W(result)) == Ok(Refused(id, result))
  {
    X.SignallingBytes(Refused(id, result));
    S.SignallingRoundTrip(Refused(id, result));
    assert [0x15, id, 10, 0] + X.W(0) + X.W(0) + X.W(0) + X.W(0) + X.W(result)
        == [0x15, id, 10, 0, 0, 0, 0, 0, 0, 0, 0, 0] + X.W(result);
  }

  // ------------------------------------------------------------------ responses

  /** Approving an offered channel tells the peer, under the identifier of its request, the channel's own identifier,
      the MTU, the MPS clamped at 1004, 500 credits and success; and those are the limits the channel then has. */
  lemma ApprovalAnnounces(s: ConnState, request: S.SignallingPacket, rxMTU: Uint16)
    requires request.LEConnectionRequest?
    ensures var c := Approved(Offered(s, request), rxMTU); var mps := if rxMTU > 1004 then 1004 else rxMTU;
            && c.rxCID == s.next && c.rxMTU == rxMTU && c.rxMPS == mps && c.rxCredits == 500
            && ApprovalPdu(request.id, c) ==
                 [14, 0, 5, 0] + ([0x15, request.id, 10, 0]
                                  + X.W(s.next) + X.W(rxMTU) + X.W(mps) + X.W(500) + X.W(0))
            && ReadResponse(ApprovalPdu(request.id, c))
               == Ok(S.LEConnectionResponse(request.id, s.next, rxMTU, mps, 500, 0))
  {
    var c := Approved(Offered(s, request), rxMTU);
    var p := ApprovalResponse(request.id, c);
    ResponseArrives(p);
    X.SignallingBytes(p);
    X.FrameBytes(5, 0, ResponseBytes(p));
  }
}
