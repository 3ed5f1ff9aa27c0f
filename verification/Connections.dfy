/** One L2CAP connection: what Accept does with each PDU. Channel identifiers, credit indications, routing. */
module Connections {
  import opened Bytes
  import opened ChannelStates
  import F = Frames
  import S = Signalling

  /** `cocs` holds the approved channels under the identifiers they receive on. */
  datatype ConnState = ConnState(cocs: map<Uint16, ChannelState>, next: Uint16)

  datatype Outcome =
    | Ignored
    | Delivered(reply: Reply)
    | Credited(overflowed: set<Uint16>)
    | Requested(id: Byte, chan: ChannelState, refusals: seq<S.SignallingPacket>)
    | TornDown
    | Failed(error: Error)

  const REFUSED_NO_RESOURCES: Uint16 := 0x0004
  const REFUSED_INVALID_SOURCE_CID: Uint16 := 0x0009
  const REFUSED_CID_ALLOCATED: Uint16 := 0x000A
  const REFUSED_PARAMETERS: Uint16 := 0x000B

  function NewConn(): ConnState {
    ConnState(map[], F.CID_FIRST_DYNAMIC)
  }

  /** The channel Accept returns for a connection request: limits and credits are the peer's, unclamped. */
  function Offered(s: ConnState, p: S.SignallingPacket): ChannelState
    requires p.LEConnectionRequest?
  {
    ChannelState(s.next, p.scid, p.mps, 0, 0, p.credits, 0, [], 0, [])
  }

  function Repeat<T>(x: T, n: nat): (r: seq<T>)
    ensures |r| == n
  {
    seq(n, _ => x)
  }

  function WithTxCID(s: ConnState, cid: Uint16): set<Uint16> {
    set k | k in s.cocs && s.cocs[k].txCID == cid
  }

  /** A response without a channel. */
  function Refusal(id: Byte, result: Uint16): S.SignallingPacket {
    S.LEConnectionResponse(id, 0, 0, 0, 0, result)
  }

  /** The refusals Accept writes for a request, which it nevertheless goes on to accept. */
  function Refusals(s: ConnState, p: S.SignallingPacket): seq<S.SignallingPacket>
    requires p.LEConnectionRequest?
  {
    (if p.mtu < 23 || p.mps < 23 || p.mps > 65533 then [Refusal(p.id, REFUSED_PARAMETERS)] else [])
    + (if |s.cocs| == 0xFFC0 then [Refusal(p.id, REFUSED_NO_RESOURCES)] else [])
    + (if p.scid <= 0x003F then [Refusal(p.id, REFUSED_INVALID_SOURCE_CID)] else [])
    + Repeat(Refusal(p.id, REFUSED_CID_ALLOCATED), |WithTxCID(s, p.scid)|)
  }

  /** Every channel that sends to this identifier gets the credits; zero credits are ignored. */
  function CreditAll(cocs: map<Uint16, ChannelState>, cid: Uint16, credits: Uint16): map<Uint16, ChannelState> {
    map k | k in cocs :: if cocs[k].txCID == cid then Indicate(cocs[k], credits).0 else cocs[k]
  }

  function Overflowed(cocs: map<Uint16, ChannelState>, cid: Uint16, credits: Uint16): set<Uint16> {
    set k | k in cocs && cocs[k].txCID == cid && Indicate(cocs[k], credits).1.RequestDisconnect?
  }

  function HandleSignalling(s: ConnState, payload: seq<Byte>): (ConnState, Outcome) {
    match S.Unmarshal(payload)
    case Err(e) => (s, Failed(e))
    case Ok(p) =>
      if p.LEConnectionRequest? then
        (s.(next := Wrap16(s.next as int + 1)), Requested(p.id, Offered(s, p), Refusals(s, p)))
      else if p.CreditIndication? then
        (s.(cocs := CreditAll(s.cocs, p.cid, p.credits)), Credited(Overflowed(s.cocs, p.cid, p.credits)))
      else if p.DisconnectionRequest? || p.DisconnectionResponse? then (s, TornDown)
      else (s, Failed(UnhandledPacket))
  }

  /** The largest payload of a B-frame that fits the buffer it is read into. */
  const MAX_PAYLOAD: Uint16 := 0xFFFF - 4

  /** ReadFrame: the PDU must fit the 65535-byte buffer it is copied into. */
  function ReadFrame(pdu: seq<Byte>): Result<F.Frame> {
    if |pdu| > 0xFFFF then Err(ShortBuffer) else F.UnmarshalFrame(pdu)
  }

  /** One turn of Accept's loop. */
  function HandlePdu(s: ConnState, pdu: seq<Byte>): (ConnState, Outcome) {
    match ReadFrame(pdu)
    case Err(e) => (s, Failed(e))
    case Ok(GFrame(_, _)) => (s, Ignored)
    case Ok(BFrame(cid, payload)) =>
      if cid == F.CID_ATTRIBUTE_PROTOCOL then (s, if payload == [] then Failed(IndexOutOfRange) else Ignored)
      else if cid == F.CID_SIGNALLING_LEU then HandleSignalling(s, payload)
      else if cid in s.cocs then
        var (c, reply) := Receive(s.cocs[cid], payload);
        (s.(cocs := s.cocs[cid := c]), Delivered(reply))
      else (s, Ignored)
  }

  /** The response Approve writes for a channel it has just opened. */
  function ApprovalResponse(id: Byte, c: ChannelState): S.SignallingPacket {
    S.LEConnectionResponse(id, c.rxCID, c.rxMTU, c.rxMPS, c.rxCredits, 0)
  }

  /** What can happen to a connection: a PDU arrives, or the application approves a channel it was offered. */
  datatype ConnEvent = Inbound(pdu: seq<Byte>) | Approval(chan: ChannelState, rxMTU: Uint16)

  function ConnNext(s: ConnState, e: ConnEvent): ConnState {
    match e
    case Inbound(pdu) => HandlePdu(s, pdu).0
    case Approval(c, rxMTU) => s.(cocs := s.cocs[c.rxCID := Approved(c, rxMTU)])
  }

  function ConnRun(s: ConnState, es: seq<ConnEvent>): ConnState
    decreases |es|
  {
    if es == [] then s else ConnRun(ConnNext(s, es[0]), es[1..])
  }

  function Inbounds(pdus: seq<seq<Byte>>): (r: seq<ConnEvent>)
    ensures |r| == |pdus| && forall i :: 0 <= i < |pdus| ==> r[i] == Inbound(pdus[i])
  {
    if pdus == [] then [] else [Inbound(pdus[0])] + Inbounds(pdus[1..])
  }

  /** Accept: PDUs are handled until one yields a channel, an error or a disconnection. `outcomes` has one entry for
      each PDU it consumed. */
  function Accept(s: ConnState, pdus: seq<seq<Byte>>): (ConnState, seq<Outcome>)
    decreases |pdus|
  {
    if pdus == [] then (s, [])
    else
      var (t, out) := HandlePdu(s, pdus[0]);
      if Stops(out) then (t, [out])
      else
        var (u, outs) := Accept(t, pdus[1..]);
        (u, [out] + outs)
  }

  predicate Stops(out: Outcome) {
    out.Requested? || out.Failed? || out.TornDown?
  }

  lemma FirstInbound(s: ConnState, pdus: seq<seq<Byte>>, n: nat)
    requires 0 < n <= |pdus|
    ensures ConnRun(s, Inbounds(pdus[..n])) == ConnRun(HandlePdu(s, pdus[0]).0, Inbounds(pdus[1..][..n - 1]))
  {
    assert pdus[..n][0] == pdus[0] && pdus[..n][1..] == pdus[1..][..n - 1];
    assert Inbounds(pdus[..n])[0] == Inbound(pdus[0]);
    assert Inbounds(pdus[..n])[1..] == Inbounds(pdus[1..][..n - 1]);
  }

  /** The i-th outcome. */
  lemma {:induction false} OutcomeAt(s: ConnState, pdus: seq<seq<Byte>>, i: nat)
    requires i < |Accept(s, pdus).1|
    ensures i < |pdus| && Accept(s, pdus).1[i] == HandlePdu(ConnRun(s, Inbounds(pdus[..i])), pdus[i]).1
    decreases i
  {
    var (t, out) := HandlePdu(s, pdus[0]);
    if i == 0 {
      assert pdus[..0] == [];
    } else {
      OutcomeAt(t, pdus[1..], i - 1);
      FirstInbound(s, pdus, i);
      assert Accept(s, pdus).1[i] == Accept(t, pdus[1..]).1[i - 1] && pdus[i] == pdus[1..][i - 1];
    }
  }

  lemma {:induction false} AcceptStops(s: ConnState, pdus: seq<seq<Byte>>)
    ensures var (t, outs) := Accept(s, pdus);
            && |outs| <= |pdus|
            && t == ConnRun(s, Inbounds(pdus[..|outs|]))
            && (forall i :: 0 <= i < |outs| - 1 ==> !Stops(outs[i]))
            && (|outs| < |pdus| ==> outs != [] && Stops(outs[|outs| - 1]))
    decreases |pdus|
  {
    if pdus == [] {
      assert pdus[..0] == [];
    } else {
      var (t, out) := HandlePdu(s, pdus[0]);
      if Stops(out) {
        FirstInbound(s, pdus, 1);
        assert pdus[1..][..0] == [];
      } else {
        AcceptStops(t, pdus[1..]);
        FirstInbound(s, pdus, |Accept(s, pdus).1|);
      }
    }
  }

  /** Accept stops at the first PDU that makes it, has by then done what the PDUs up to there do, and each of them has
      come to what it comes to in the state it found. */
  lemma AcceptConsumes(s: ConnState, pdus: seq<seq<Byte>>)
    ensures var (t, outs) := Accept(s, pdus);
            && |outs| <= |pdus|
            && t == ConnRun(s, Inbounds(pdus[..|outs|]))
            && (forall i :: 0 <= i < |outs| ==> outs[i] == HandlePdu(ConnRun(s, Inbounds(pdus[..i])), pdus[i]).1)
            && (forall i :: 0 <= i < |outs| - 1 ==> outs[i].Ignored? || outs[i].Delivered? || outs[i].Credited?)
            && (|outs| < |pdus| ==>
                  && outs != []
                  && var last := outs[|outs| - 1]; last.Requested? || last.Failed? || last.TornDown?)
  {
    var outs := Accept(s, pdus).1;
    AcceptStops(s, pdus);
    forall i | 0 <= i < |outs| ensures outs[i] == HandlePdu(ConnRun(s, Inbounds(pdus[..i])), pdus[i]).1 {
      OutcomeAt(s, pdus, i);
    }
  }

  // ------------------------------------------------------------------ channels do not interfere

  datatype ChannelEvent = DataIn(payload: seq<Byte>) | CreditsIn(credits: Uint16)

  function ChannelNext(c: ChannelState, e: ChannelEvent): ChannelState {
    match e
    case DataIn(payload) => Receive(c, payload).0
    case CreditsIn(n) => Indicate(c, n).0
  }

  function ChannelRun(c: ChannelState, es: seq<ChannelEvent>): ChannelState
    decreases |es|
  {
    if es == [] then c else ChannelRun(ChannelNext(c, es[0]), es[1..])
  }

  predicate IsIndication(pdu: seq<Byte>) {
    match ReadFrame(pdu)
    case Ok(BFrame(cid, payload)) =>
      cid == F.CID_SIGNALLING_LEU && S.Unmarshal(payload).Ok? && S.Unmarshal(payload).value.CreditIndication?
    case _ => false
  }

  function Indication(pdu: seq<Byte>): (p: S.SignallingPacket)
    requires IsIndication(pdu)
    ensures p.CreditIndication?
  {
    S.Unmarshal(ReadFrame(pdu).value.payload).value
  }

  /** Identifiers whose frames reach a channel. Those of the fixed channels are taken before channels are looked up. */
  predicate Routable(cid: Uint16) {
    cid != F.CID_CONNECTIONLESS && cid != F.CID_ATTRIBUTE_PROTOCOL && cid != F.CID_SIGNALLING_LEU
  }

  /** What a PDU means to the channel that receives on rx and sends to tx. */
  function Own(rx: Uint16, tx: Uint16, pdu: seq<Byte>): seq<ChannelEvent> {
    match ReadFrame(pdu)
    case Ok(BFrame(cid, payload)) =>
      if cid == rx then [DataIn(payload)]
      else if IsIndication(pdu) && Indication(pdu).cid == tx then [CreditsIn(Indication(pdu).credits)]
      else []
    case _ => []
  }

  function OwnAll(rx: Uint16, tx: Uint16, es: seq<ConnEvent>): seq<ChannelEvent> {
    if es == [] then []
    else (if es[0].Inbound? then Own(rx, tx, es[0].pdu) else []) + OwnAll(rx, tx, es[1..])
  }

  lemma OwnStep(s: ConnState, k: Uint16, pdu: seq<Byte>)
    requires k in s.cocs && Routable(k)
    ensures var t := HandlePdu(s, pdu).0;
            && k in t.cocs
            && t.cocs[k] == ChannelRun(s.cocs[k], Own(k, s.cocs[k].txCID, pdu))
            && t.cocs[k].txCID == s.cocs[k].txCID
  {
    var own := Own(k, s.cocs[k].txCID, pdu);
    if own != [] {
      assert own[1..] == [];
      assert ChannelRun(s.cocs[k], own) == ChannelNext(s.cocs[k], own[0]);
    }
  }

  lemma {:induction false} ChannelRunAppend(c: ChannelState, a: seq<ChannelEvent>, b: seq<ChannelEvent>)
    ensures ChannelRun(c, a + b) == ChannelRun(ChannelRun(c, a), b)
    decreases |a|
  {
    if a == [] {
      assert a + b == b;
    } else {
      ChannelRunAppend(ChannelNext(c, a[0]), a[1..], b);
      assert (a + b)[1..] == a[1..] + b;
    }
  }

  /** Non-interference: whatever else the connection carries, requests, other channels' frames and credits, malformed
      PDUs, a channel's buffers, SDUs and credits are those its own frames and credits give it. */
  lemma {:induction false} ChannelsDoNotInterfere(s: ConnState, k: Uint16, es: seq<ConnEvent>)
    requires k in s.cocs && Routable(k)
    requires forall i :: 0 <= i < |es| && es[i].Approval? ==> es[i].chan.rxCID != k
    ensures k in ConnRun(s, es).cocs
    ensures ConnRun(s, es).cocs[k] == ChannelRun(s.cocs[k], OwnAll(k, s.cocs[k].txCID, es))
    decreases |es|
  {
    if es != [] {
      var t := ConnNext(s, es[0]);
      var own := if es[0].Inbound? then Own(k, s.cocs[k].txCID, es[0].pdu) else [];
      if es[0].Inbound? {
        OwnStep(s, k, es[0].pdu);
      } else {
        assert es[0].chan.rxCID != k;
      }
      ChannelsDoNotInterfere(t, k, es[1..]);
      ChannelRunAppend(s.cocs[k], own, OwnAll(k, s.cocs[k].txCID, es[1..]));
    }
  }

  // ------------------------------------------------------------------ channel identifiers

  /** The channel, if any, that one event makes Accept return. */
  function Offer(s: ConnState, e: ConnEvent): seq<ChannelState> {
    if e.Inbound? && HandlePdu(s, e.pdu).1.Requested? then [HandlePdu(s, e.pdu).1.chan] else []
  }

  /** The channels offered by the requests of a run, in order. */
  function Offers(s: ConnState, es: seq<ConnEvent>): seq<ChannelState>
    decreases |es|
  {
    if es == [] then [] else Offer(s, es[0]) + Offers(ConnNext(s, es[0]), es[1..])
  }

  /** The application approves only channels it was offered. */
  predicate HonestRun(s: ConnState, offered: seq<ChannelState>, es: seq<ConnEvent>)
    decreases |es|
  {
    es == [] ||
    ((es[0].Approval? ==> es[0].chan in offered)
     && HonestRun(ConnNext(s, es[0]), offered + Offer(s, es[0]), es[1..]))
  }

  predicate Keyed(s: ConnState) {
    forall k :: k in s.cocs ==> s.cocs[k].rxCID == k
  }

  /** Consecutive identifiers, modulo 2^16. */
  predicate Consecutive(offers: seq<ChannelState>, next: Uint16) {
    offers == [] || (offers[0].rxCID == next && Consecutive(offers[1..], Wrap16(next as int + 1)))
  }

  lemma OfferStep(s: ConnState, e: ConnEvent)
    ensures Offer(s, e) == [] ==> ConnNext(s, e).next == s.next
    ensures Offer(s, e) != [] ==>
              |Offer(s, e)| == 1 && Offer(s, e)[0].rxCID == s.next && ConnNext(s, e).next == Wrap16(s.next as int + 1)
  {
  }

  lemma {:induction false} OfferedInSequence(s: ConnState, es: seq<ConnEvent>)
    ensures Consecutive(Offers(s, es), s.next)
    decreases |es|
  {
    if es != [] {
      OfferStep(s, es[0]);
      OfferedInSequence(ConnNext(s, es[0]), es[1..]);
      if Offer(s, es[0]) != [] {
        assert Offers(s, es)[1..] == Offers(ConnNext(s, es[0]), es[1..]);
      } else {
        assert Offers(s, es) == Offers(ConnNext(s, es[0]), es[1..]);
      }
    }
  }

  lemma {:induction false} ConsecutiveAt(offers: seq<ChannelState>, next: Uint16, i: nat)
    requires Consecutive(offers, next) && i < |offers|
    ensures offers[i].rxCID == Wrap16(next as int + i)
    decreases i
  {
    if i > 0 {
      ConsecutiveAt(offers[1..], Wrap16(next as int + 1), i - 1);
      WrapAdd(next as int + 1, i - 1);
    }
  }

  lemma KeyedStep(s: ConnState, pdu: seq<Byte>)
    requires Keyed(s)
    ensures Keyed(HandlePdu(s, pdu).0) && HandlePdu(s, pdu).0.cocs.Keys == s.cocs.Keys
  {
    var t := HandlePdu(s, pdu).0;
    forall k | k in s.cocs ensures k in t.cocs && t.cocs[k].rxCID == k {
    }
    forall k | k in t.cocs ensures k in s.cocs {
    }
  }

  /** Every registered channel sits under its own identifier, and every such identifier was handed out. */
  lemma {:induction false} RegisteredWereOffered(s: ConnState, offered: seq<ChannelState>, es: seq<ConnEvent>)
    requires Keyed(s) && HonestRun(s, offered, es)
    requires forall k :: k in s.cocs ==> exists c :: c in offered && c.rxCID == k
    ensures Keyed(ConnRun(s, es))
    ensures forall k :: k in ConnRun(s, es).cocs ==> exists c :: c in offered + Offers(s, es) && c.rxCID == k
    decreases |es|
  {
    if es == [] {
      assert offered + Offers(s, es) == offered;
    } else {
      var t := ConnNext(s, es[0]);
      var now := Offer(s, es[0]);
      if es[0].Inbound? {
        KeyedStep(s, es[0].pdu);
      }
      forall k | k in t.cocs ensures exists c :: c in offered + now && c.rxCID == k {
        if k in s.cocs {
          var c :| c in offered && c.rxCID == k;
          assert c in offered + now;
        } else {
          assert es[0].chan in offered + now;
        }
      }
      RegisteredWereOffered(t, offered + now, es[1..]);
      assert offered + now + Offers(t, es[1..]) == offered + Offers(s, es);
    }
  }

  /** Channel identifiers on every run of a new connection: they are pairwise distinct and all in the dynamic range
      0x0040..0xFFFF exactly as long as there were at most 0xFFC0 requests, refused ones included; and then every
      registered channel is found under its own identifier, clear of the fixed channels. */
  lemma ChannelIdentifiers(es: seq<ConnEvent>)
    requires HonestRun(NewConn(), [], es)
    ensures var offers := Offers(NewConn(), es); var s := ConnRun(NewConn(), es);
            && (AllDynamic(offers) && AllDistinct(offers) <==> |offers| <= 0xFFC0)
            && Keyed(s)
            && (|offers| <= 0xFFC0 ==> forall k :: k in s.cocs ==> k >= F.CID_FIRST_DYNAMIC)
  {
    var offers := Offers(NewConn(), es);
    OfferedInSequence(NewConn(), es);
    forall i | 0 <= i < |offers| ensures offers[i].rxCID == Wrap16(0x40 + i) {
      ConsecutiveAt(offers, 0x40, i);
    }
    DistinctWhileInRange(offers);
    RegisteredWereOffered(NewConn(), [], es);
    assert [] + offers == offers;
    RegisteredDynamic(ConnRun(NewConn(), es), offers);
  }

  predicate AllDynamic(offers: seq<ChannelState>) {
    forall c :: c in offers ==> c.rxCID >= F.CID_FIRST_DYNAMIC
  }

  predicate AllDistinct(offers: seq<ChannelState>) {
    forall i, j :: 0 <= i < j < |offers| ==> offers[i].rxCID != offers[j].rxCID
  }

  lemma RegisteredDynamic(s: ConnState, offers: seq<ChannelState>)
    requires forall k :: k in s.cocs ==> exists c :: c in offers && c.rxCID == k
    ensures AllDynamic(offers) ==> forall k :: k in s.cocs ==> k >= F.CID_FIRST_DYNAMIC
  {
  }

  lemma DistinctWhileInRange(offers: seq<ChannelState>)
    requires forall i :: 0 <= i < |offers| ==> offers[i].rxCID == Wrap16(0x40 + i)
    ensures AllDynamic(offers) && AllDistinct(offers) <==> |offers| <= 0xFFC0
  {
    if |offers| > 0xFFC0 {
      assert offers[0xFFC0].rxCID == 0;
      assert offers[0xFFC0] in offers;
    }
  }
}
