/** The whole data path at the byte level: from the SDUs one application writes to the SDUs the other one reads. */
module EndToEnd {
  import opened Bytes
  import opened ChannelStates
  import opened Segmentation
  import opened AclPackets
  import opened Recombination
  import opened Interleavings
  import opened Connections
  import F = Frames
  import A = AclCredits
  import Ch = Channels
  import H = HciEvents

  // ------------------------------------------------------------------ the sender

  /** One frame of channel `cid`, as bytes. */
  function PduOf(cid: Uint16, payload: seq<Byte>): seq<Byte>
    requires |payload| <= 0xFFFF
  {
    F.Marshal(F.BFrame(cid, payload)).value
  }

  function PdusOf(cid: Uint16, payloads: seq<seq<Byte>>): (r: seq<seq<Byte>>)
    requires forall i :: 0 <= i < |payloads| ==> |payloads[i]| <= 0xFFFF
    ensures |r| == |payloads|
  {
    if payloads == [] then [] else [PduOf(cid, payloads[0])] + PdusOf(cid, payloads[1..])
  }

  /** The HCI packets as the host writes them to the controller. */
  function HostBytes(qs: seq<AclPacket>): (r: seq<seq<Byte>>)
    ensures |r| == |qs|
  {
    if qs == [] then [] else [Marshal(qs[0])] + HostBytes(qs[1..])
  }

  /** The two controllers: each packet is parsed, relabelled and written again. */
  function Air(wire: seq<seq<Byte>>): seq<seq<Byte>> {
    if wire == [] then []
    else (match Unmarshal(wire[0]) case Ok(q) => [Marshal(Relay(q))] case Err(_) => []) + Air(wire[1..])
  }

  /** The largest frame of an SDU of n bytes cut at mps fits the buffer it will be read into. */
  predicate Readable(n: nat, mps: nat) {
    Min(mps, n + 2) <= MAX_PAYLOAD
  }

  // ------------------------------------------------------------------ the receiver

  /** The payload of a frame, if it is addressed to the channel. */
  function PayloadFor(cid: Uint16, pdu: seq<Byte>): seq<seq<Byte>> {
    match ReadFrame(pdu)
    case Ok(BFrame(to, payload)) => if to == cid then [payload] else []
    case _ => []
  }

  function DataFor(cid: Uint16, pdus: seq<seq<Byte>>): seq<seq<Byte>> {
    if pdus == [] then [] else PayloadFor(cid, pdus[0]) + DataFor(cid, pdus[1..])
  }

  /** A PDU that tears a channel down or makes Accept panic, whatever the state of the connection. */
  predicate Interrupts(pdu: seq<Byte>) {
    Stopping(HandlePdu(NewConn(), pdu).1)
  }

  predicate Stopping(out: Outcome) {
    out.TornDown? || out == Failed(IndexOutOfRange)
  }

  /** The run meets no such PDU. */
  predicate Uninterrupted(s: ConnState, pdus: seq<seq<Byte>>)
    decreases |pdus|
  {
    pdus == [] || (!Stopping(HandlePdu(s, pdus[0]).1) && Uninterrupted(HandlePdu(s, pdus[0]).0, pdus[1..]))
  }

  lemma InterruptsAnywhere(s: ConnState, pdu: seq<Byte>)
    ensures Stopping(HandlePdu(s, pdu).1) <==> Interrupts(pdu)
  {
  }

  lemma {:induction false} NothingInterrupts(s: ConnState, pdus: seq<seq<Byte>>)
    requires forall pdu :: pdu in pdus ==> !Interrupts(pdu)
    ensures Uninterrupted(s, pdus)
    decreases |pdus|
  {
    if pdus != [] {
      assert pdus[0] in pdus;
      InterruptsAnywhere(s, pdus[0]);
      assert forall pdu :: pdu in pdus[1..] ==> pdu in pdus;
      NothingInterrupts(HandlePdu(s, pdus[0]).0, pdus[1..]);
    }
  }

  // ------------------------------------------------------------------ layer by layer

  /** The frames that a channel's writer hands down are, marshalled, these PDUs. */
  lemma {:induction false} FramesWritten(cid: Uint16, payloads: seq<seq<Byte>>, i: nat)
    requires i < |payloads| && forall j :: 0 <= j < |payloads| ==> |payloads[j]| <= 0xFFFF
    ensures F.Marshal(Ch.Framing(cid, payloads)[i]) == Ok(PdusOf(cid, payloads)[i])
    decreases i
  {
    if i > 0 {
      FramesWritten(cid, payloads[1..], i - 1);
    }
  }

  lemma {:induction false} HostPacketsUnique(ps: seq<AclPacket>, qs: seq<AclPacket>)
    requires forall q :: q in ps + qs ==> Encodable(q)
    requires HostBytes(ps) == HostBytes(qs)
    ensures ps == qs
    decreases |ps|
  {
    assert |ps| == |HostBytes(ps)| == |HostBytes(qs)| == |qs|;
    if ps != [] {
      assert ps[0] in ps + qs && qs[0] in ps + qs;
      AclRoundTrip(ps[0]);
      AclRoundTrip(qs[0]);
      assert Marshal(ps[0]) == HostBytes(ps)[0] == HostBytes(qs)[0] == Marshal(qs[0]);
      assert HostBytes(ps[1..]) == HostBytes(ps)[1..] == HostBytes(qs)[1..] == HostBytes(qs[1..]);
      assert forall q :: q in ps[1..] + qs[1..] ==> q in ps + qs;
      HostPacketsUnique(ps[1..], qs[1..]);
      assert ps == [ps[0]] + ps[1..] && qs == [qs[0]] + qs[1..];
    }
  }

  lemma {:induction false} AirRelays(qs: seq<AclPacket>)
    requires forall q :: q in qs ==> Encodable(q)
    ensures Air(HostBytes(qs)) == HostBytes(RelayAll(qs))
    ensures forall q :: q in RelayAll(qs) ==> Encodable(q)
    decreases |qs|
  {
    if qs != [] {
      assert qs[0] in qs;
      AclRoundTrip(qs[0]);
      AirRelays(qs[1..]);
      assert HostBytes(qs)[1..] == HostBytes(qs[1..]);
      assert RelayAll(qs)[1..] == RelayAll(qs[1..]);
    }
  }

  lemma {:induction false} LabelEncodable(handle: Uint16, pieces: seq<seq<Byte>>, start: bool)
    requires handle < 0x1000 && forall i :: 0 <= i < |pieces| ==> |pieces[i]| <= 0xFFFF - 5
    ensures forall q :: q in Label(handle, pieces, start) ==> Encodable(q) && q.handle == handle
    decreases |pieces|
  {
    if pieces != [] {
      LabelEncodable(handle, pieces[1..], false);
    }
  }

  /** Fragments fit the ACL format when the handle has twelve bits and no fragment passes 65530 bytes. */
  lemma {:induction false} FragmentsEncodable(handle: Uint16, pdus: seq<seq<Byte>>, mtu: nat)
    requires mtu > 0 && handle < 0x1000
    requires forall i :: 0 <= i < |pdus| ==> Min(mtu, |pdus[i]|) <= 0xFFFF - 5
    ensures forall q :: q in AllFragments(handle, pdus, mtu) ==> Encodable(q) && q.handle == handle
    decreases |pdus|
  {
    if pdus != [] {
      var pieces := Chunks(pdus[0], mtu);
      ChunkShape(pdus[0], mtu);
      ConcatChunks(pdus[0], mtu);
      forall i | 0 <= i < |pieces| ensures |pieces[i]| <= 0xFFFF - 5 {
        PieceWithin(pieces, i);
      }
      LabelEncodable(handle, pieces, true);
      FragmentsEncodable(handle, pdus[1..], mtu);
    }
  }

  lemma {:induction false} PieceWithin<T>(pieces: seq<seq<T>>, i: nat)
    requires i < |pieces|
    ensures |pieces[i]| <= |Concat(pieces)|
    decreases i
  {
    if i > 0 {
      PieceWithin(pieces[1..], i - 1);
    }
  }

  lemma {:induction false} OnlyHandle(handle: Uint16, qs: seq<AclPacket>)
    requires forall q :: q in qs ==> q.handle == handle
    ensures ForHandle(handle, qs) == qs
    decreases |qs|
  {
    if qs != [] {
      assert qs[0] in qs;
      OnlyHandle(handle, qs[1..]);
    }
  }

  /** The payloads a channel takes from its events. */
  function DataOf(es: seq<ChannelEvent>): seq<seq<Byte>> {
    if es == [] then [] else (if es[0].DataIn? then [es[0].payload] else []) + DataOf(es[1..])
  }

  lemma {:induction false} DataOfAppend(a: seq<ChannelEvent>, b: seq<ChannelEvent>)
    ensures DataOf(a + b) == DataOf(a) + DataOf(b)
  {
    if a == [] {
      assert a + b == b;
    } else {
      DataOfAppend(a[1..], b);
      assert (a + b)[0] == a[0] && (a + b)[1..] == a[1..] + b;
      Associate(if a[0].DataIn? then [a[0].payload] else [], DataOf(a[1..]), DataOf(b));
    }
  }

  lemma {:induction false} OwnPayloads(rx: Uint16, tx: Uint16, pdus: seq<seq<Byte>>)
    ensures DataOf(OwnAll(rx, tx, Inbounds(pdus))) == DataFor(rx, pdus)
    decreases |pdus|
  {
    if pdus != [] {
      OwnPayloads(rx, tx, pdus[1..]);
      var es := Inbounds(pdus);
      assert es[1..] == Inbounds(pdus[1..]);
      DataOfAppend(Own(rx, tx, pdus[0]), OwnAll(rx, tx, es[1..]));
      assert OwnAll(rx, tx, es) == Own(rx, tx, pdus[0]) + OwnAll(rx, tx, es[1..]);
    }
  }

  /** Credits that arrive in between do not change what is received. */
  lemma {:induction false} ReceivesItsPayloads(c: ChannelState, es: seq<ChannelEvent>)
    ensures ChannelRun(c, es) == ReceiveAll(c, DataOf(es)).(txCredits := ChannelRun(c, es).txCredits)
    decreases |es|
  {
    if es != [] {
      var d := ChannelNext(c, es[0]);
      ReceivesItsPayloads(d, es[1..]);
      match es[0] {
        case DataIn(payload) =>
          assert DataOf(es)[0] == payload && DataOf(es)[1..] == DataOf(es[1..]);
        case CreditsIn(n) =>
          assert DataOf(es) == DataOf(es[1..]);
          TxCreditsDoNotMatter(c, d, DataOf(es[1..]));
      }
    }
  }

  // ------------------------------------------------------------------ the theorem

  lemma {:induction false} RelayForHandle(handle: Uint16, qs: seq<AclPacket>)
    ensures ForHandle(handle, RelayAll(qs)) == RelayAll(ForHandle(handle, qs))
    decreases |qs|
  {
    if qs != [] {
      RelayForHandle(handle, qs[1..]);
      assert RelayAll(qs)[0] == Relay(qs[0]) && RelayAll(qs)[1..] == RelayAll(qs[1..]);
      if qs[0].handle == handle {
        assert ForHandle(handle, qs) == [qs[0]] + ForHandle(handle, qs[1..]);
        RelayCons(qs[0], ForHandle(handle, qs[1..]));
      } else {
        assert ForHandle(handle, qs) == ForHandle(handle, qs[1..]);
      }
    }
  }

  lemma {:induction false} OrderedFromWriters(queues: seq<seq<AclPacket>>, todo: seq<seq<seq<Byte>>>, turns: seq<nat>)
    requires Schedule(queues, turns) && |todo| == |queues|
    ensures forall pdu :: pdu in InOrder(queues, todo, turns) ==> exists v :: 0 <= v < |todo| && pdu in todo[v]
    decreases |turns|
  {
    if turns != [] {
      var v := turns[0];
      if Begun(queues[v]) || todo[v] == [] {
        OrderedFromWriters(Advance(queues, v), todo, turns[1..]);
      } else {
        var later := Advance(todo, v);
        OrderedFromWriters(Advance(queues, v), later, turns[1..]);
        assert todo[v][0] in todo[v];
        assert forall u, pdu :: 0 <= u < |later| && pdu in later[u] ==> pdu in todo[u];
      }
    }
  }

  /** If only writer w sends frames of a channel, they arrive in its order, whatever the turns. */
  lemma {:induction false} OneWritersData(cid: Uint16, queues: seq<seq<AclPacket>>, todo: seq<seq<seq<Byte>>>, w: nat,
                                          turns: seq<nat>)
    requires Schedule(queues, turns) && |todo| == |queues| && w < |queues|
    requires forall v :: 0 <= v < |queues| ==> Begins(queues[v]) == |todo[v]|
    requires forall v :: 0 <= v < |queues| && v != w ==> DataFor(cid, todo[v]) == []
    ensures DataFor(cid, InOrder(queues, todo, turns)) == DataFor(cid, todo[w])
    decreases |turns|
  {
    if turns == [] {
      assert |todo[w]| == 0;
    } else {
      var v := turns[0];
      if Begun(queues[v]) {
        OneWritersData(cid, Advance(queues, v), todo, w, turns[1..]);
      } else {
        var pdu := todo[v][0];
        var rest := InOrder(Advance(queues, v), Advance(todo, v), turns[1..]);
        assert DataFor(cid, todo[v]) == PayloadFor(cid, pdu) + DataFor(cid, todo[v][1..]);
        OneWritersData(cid, Advance(queues, v), Advance(todo, v), w, turns[1..]);
        assert ([pdu] + rest)[0] == pdu && ([pdu] + rest)[1..] == rest;
      }
    }
  }

  /** The receiving half, from the PDUs on. */
  lemma ChannelReceives(s: ConnState, k: Uint16, mps: nat, sdus: seq<seq<Byte>>, pdus: seq<seq<Byte>>)
    requires k in s.cocs && Routable(k) && Idle(s.cocs[k]) && s.cocs[k].rxCredits > 0
    requires mps > 0 && AllDeliverable(sdus, mps, s.cocs[k].rxMPS, s.cocs[k].rxMTU)
    requires DataFor(k, pdus) == AllSegments(sdus, mps)
    ensures var t := ConnRun(s, Inbounds(pdus));
            k in t.cocs && Idle(t.cocs[k]) && t.cocs[k].delivered == s.cocs[k].delivered + sdus
  {
    ChannelsDoNotInterfere(s, k, Inbounds(pdus));
    OwnPayloads(k, s.cocs[k].txCID, pdus);
    ReceivesItsPayloads(s.cocs[k], OwnAll(k, s.cocs[k].txCID, Inbounds(pdus)));
    WritesDelivered(s.cocs[k], sdus, mps);
  }

  /** What the far controller sends its host: well-formed packets of all kinds, and the data packets among them are
      those that came over the air. */
  ghost predicate Arriving(xs: seq<H.Incoming>, ps: seq<AclPacket>) {
    && (forall x :: x in xs ==> H.WellFormed(x))
    && HostBytes(H.DataIn(xs)) == Air(HostBytes(ps))
  }

  /** From the packets of one connection to its PDUs, among those of others. */
  lemma ConnectionReceives(handle: Uint16, ps: seq<AclPacket>, qs: seq<AclPacket>, xs: seq<H.Incoming>)
    requires forall p :: p in ps ==> Encodable(p)
    requires ForHandle(handle, ps) == qs
    requires Arriving(xs, ps)
    ensures var data := H.Handed(H.Wire(xs));
            && Pdus(handle, [], data) == Pdus(handle, [], RelayAll(qs))
            && Residue(handle, [], data) == Residue(handle, [], RelayAll(qs))
            && Faults(handle, [], data) == Faults(handle, [], RelayAll(qs))
  {
    AirRelays(ps);
    H.DataHandedOn(xs);
    HostPacketsUnique(H.DataIn(xs), RelayAll(ps));
    RelayForHandle(handle, ps);
    HandlesDoNotInterfere(handle, [], RelayAll(ps));
  }

  /** End to end, with everything else going on. `ps` are the packets the host hands to its controller, of any number of
      connections interleaved in any way; those of this connection come from any number of writers, each with whole
      PDUs and its own piece size, taking turns in any order in which no writer cuts into another one's PDU. Some
      writer sends, among other things, the frames of writing `sdus` to a channel, and the others send that channel
      nothing. The far controller passes the data packets on among events of its own. Then its host's reader reads all
      of them, the bytes recombine to exactly the PDUs written, the reader of the channel is handed exactly those SDUs,
      in order, and no byte is left behind in any buffer. */
  lemma {:induction false} EndToEndDelivery(s: ConnState, k: Uint16, handle: Uint16, mps: nat, sdus: seq<seq<Byte>>,
                                            queues: seq<seq<AclPacket>>, todo: seq<seq<seq<Byte>>>, mtus: seq<nat>,
                                            w: nat, turns: seq<nat>, ps: seq<AclPacket>, xs: seq<H.Incoming>,
                                            l: A.Ledger)
    requires k in s.cocs && Routable(k) && Idle(s.cocs[k]) && s.cocs[k].rxCredits > 0
    requires mps > 0 && AllDeliverable(sdus, mps, s.cocs[k].rxMPS, s.cocs[k].rxMTU)
    requires Ready(handle, queues, todo, mtus) && w < |todo| && DataFor(k, todo[w]) == AllSegments(sdus, mps)
    requires forall v :: 0 <= v < |todo| && v != w ==> DataFor(k, todo[v]) == []
    requires Schedule(queues, turns) && Apart(queues, turns)
    requires forall v :: 0 <= v < |todo| ==> forall pdu :: pdu in todo[v] ==> !Interrupts(pdu)
    requires ForHandle(handle, ps) == Interleave(queues, turns) && forall p :: p in ps ==> Encodable(p)
    requires Arriving(xs, ps)
    ensures H.Reader(l, H.Wire(xs)).1
    ensures var pdus := InOrder(queues, todo, turns); var data := H.Handed(H.Wire(xs));
            && Pdus(handle, [], data) == pdus
            && Residue(handle, [], data) == [] && Clean(handle, [], data)
            && Uninterrupted(s, pdus)
            && var t := ConnRun(s, Inbounds(Pdus(handle, [], data)));
               k in t.cocs && Idle(t.cocs[k]) && t.cocs[k].delivered == s.cocs[k].delivered + sdus
  {
    H.EverythingCounts(l, xs);
    ConnectionReceives(handle, ps, Interleave(queues, turns), xs);
    WritersRecombine(handle, queues, todo, mtus, turns);
    forall v | 0 <= v < |queues| ensures Begins(queues[v]) == |todo[v]| {
      BeginsWaiting(handle, queues[v], todo[v], mtus[v]);
    }
    OneWritersData(k, queues, todo, w, turns);
    OrderedFromWriters(queues, todo, turns);
    NothingInterrupts(s, InOrder(queues, todo, turns));
    ChannelReceives(s, k, mps, sdus, InOrder(queues, todo, turns));
  }

  // ------------------------------------------------------------------ one channel, from bytes to bytes

  lemma {:induction false} PdusOfRead(cid: Uint16, payloads: seq<seq<Byte>>)
    requires Routable(cid)
    requires forall i :: 0 <= i < |payloads| ==> |payloads[i]| <= 0xFFFF - 4
    ensures DataFor(cid, PdusOf(cid, payloads)) == payloads
    ensures forall i :: 0 <= i < |payloads| ==>
              F.SelfDelimiting(PdusOf(cid, payloads)[i]) && |PdusOf(cid, payloads)[i]| == |payloads[i]| + 4
    decreases |payloads|
  {
    if payloads != [] {
      var f := F.BFrame(cid, payloads[0]);
      F.FrameRoundTrip(f);
      F.MarshalledIsSelfDelimiting(f);
      PdusOfRead(cid, payloads[1..]);
      var pdus := PdusOf(cid, payloads);
      assert pdus[1..] == PdusOf(cid, payloads[1..]);
      assert ReadFrame(pdus[0]) == Ok(f);
      assert [payloads[0]] + payloads[1..] == payloads;
    }
  }

  /** Every SDU's frames can be read at the far end, and every packet they are cut into fits the ACL format. */
  predicate AllReadable(sdus: seq<seq<Byte>>, mps: nat, mtu: nat) {
    forall i :: 0 <= i < |sdus| ==>
      Readable(|sdus[i]|, mps) && Min(mtu, Min(mps, |sdus[i]| + 2) + 4) <= 0xFFFF - 5
  }

  lemma {:induction false} SegmentsFit(sdus: seq<seq<Byte>>, mps: nat, mtu: nat)
    requires mps > 0 && AllReadable(sdus, mps, mtu)
    ensures forall p :: p in AllSegments(sdus, mps) ==> |p| <= MAX_PAYLOAD && Min(mtu, |p| + 4) <= 0xFFFF - 5
    decreases |sdus|
  {
    if sdus != [] {
      var fs := Segments(sdus[0], mps);
      WriteCost(sdus[0], mps);
      forall p | p in fs ensures |p| <= MAX_PAYLOAD && Min(mtu, |p| + 4) <= 0xFFFF - 5 {
        var i :| 0 <= i < |fs| && fs[i] == p;
        PieceWithin(fs, i);
      }
      assert forall i :: 0 <= i < |sdus[1..]| ==> sdus[1..][i] == sdus[i + 1];
      SegmentsFit(sdus[1..], mps, mtu);
    }
  }

  /** The path of one channel alone, with nothing assumed but the limits and controllers that lose nothing: SDUs are
      segmented, framed, fragmented and marshalled, pass the controllers, are parsed, recombined, unmarshalled, routed
      and reassembled, and come out as they went in. */
  lemma {:induction false} OneChannelEndToEnd(s: ConnState, k: Uint16, handle: Uint16, mtu: nat, mps: nat,
                                              sdus: seq<seq<Byte>>, xs: seq<H.Incoming>)
    requires k in s.cocs && Routable(k) && Idle(s.cocs[k]) && s.cocs[k].rxCredits > 0
    requires handle < 0x1000 && mps > 0 && mtu > 0 && AllReadable(sdus, mps, mtu)
    requires AllDeliverable(sdus, mps, s.cocs[k].rxMPS, s.cocs[k].rxMTU)
    ensures forall i :: 0 <= i < |AllSegments(sdus, mps)| ==> |AllSegments(sdus, mps)[i]| <= 0xFFFF
    ensures var pdus := PdusOf(k, AllSegments(sdus, mps));
            Arriving(xs, AllFragments(handle, pdus, mtu)) ==>
            var data := H.Handed(H.Wire(xs));
            && Pdus(handle, [], data) == pdus
            && Residue(handle, [], data) == []
            && var t := ConnRun(s, Inbounds(Pdus(handle, [], data)));
               k in t.cocs && Idle(t.cocs[k]) && t.cocs[k].delivered == s.cocs[k].delivered + sdus
  {
    var payloads := AllSegments(sdus, mps);
    SegmentsFit(sdus, mps, mtu);
    assert forall i :: 0 <= i < |payloads| ==> payloads[i] in payloads;
    var pdus := PdusOf(k, payloads);
    PdusOfRead(k, payloads);
    FragmentsEncodable(handle, pdus, mtu);
    var sent := AllFragments(handle, pdus, mtu);
    OnlyHandle(handle, sent);
    AllFragmentsRecombine(handle, pdus, mtu);
    ChannelReceives(s, k, mps, sdus, pdus);
    if Arriving(xs, sent) {
      ConnectionReceives(handle, sent, sent, xs);
    }
  }

  // ------------------------------------------------------------------ what it costs on the air

  /** The number of ACL packets for a list of payloads. */
  function PacketCount(payloads: seq<seq<Byte>>, mtu: nat): nat
    requires mtu > 0
  {
    if payloads == [] then 0 else CeilDiv(|payloads[0]| + 4, mtu) + PacketCount(payloads[1..], mtu)
  }

  lemma {:induction false} FragmentCount(handle: Uint16, cid: Uint16, payloads: seq<seq<Byte>>, mtu: nat)
    requires mtu > 0 && forall i :: 0 <= i < |payloads| ==> |payloads[i]| <= 0xFFFF
    ensures |AllFragments(handle, PdusOf(cid, payloads), mtu)| == PacketCount(payloads, mtu)
    decreases |payloads|
  {
    if payloads != [] {
      ChunkShape(PduOf(cid, payloads[0]), mtu);
      FragmentCount(handle, cid, payloads[1..], mtu);
      assert PdusOf(cid, payloads)[1..] == PdusOf(cid, payloads[1..]);
    }
  }

  /** The cost of n bytes cut at mps: the full frames, and the remainder if there is one. */
  function CutCost(n: nat, mps: nat, mtu: nat): int
    requires mps > 0 && mtu > 0
  {
    (n / mps) * CeilDiv(mps + 4, mtu) + if n % mps > 0 then CeilDiv(n % mps + 4, mtu) else 0
  }

  lemma CutCostStep(n: nat, mps: nat, mtu: nat)
    requires mps > 0 && mtu > 0
    ensures CutCost(n + mps, mps, mtu) == CeilDiv(mps + 4, mtu) + CutCost(n, mps, mtu)
  {
    var c := CeilDiv(mps + 4, mtu);
    DivStep(n, mps);
    RemainderStep(n, mps);
    assert (n / mps + 1) * c == (n / mps) * c + c;
  }

  lemma CutCostShort(n: nat, mps: nat, mtu: nat)
    requires mps > 0 && mtu > 0 && n < mps
    ensures CutCost(n, mps, mtu) == if n > 0 then CeilDiv(n + 4, mtu) else 0
  {
    QuotientUnique(n, mps, 0, n);
    assert n == (n / mps) * mps + n % mps;
    assert (n / mps) * CeilDiv(mps + 4, mtu) == 0;
  }

  lemma {:induction false} ChunkPacketCount(s: seq<Byte>, mps: nat, mtu: nat)
    requires mps > 0 && mtu > 0
    ensures PacketCount(Chunks(s, mps), mtu) == CutCost(|s|, mps, mtu)
    decreases |s|
  {
    if |s| > mps {
      ChunkPacketCount(s[mps..], mps, mtu);
      CutCostStep(|s| - mps, mps, mtu);
      assert Chunks(s, mps)[1..] == Chunks(s[mps..], mps);
    } else {
      CutCostShort(if |s| == mps then 0 else |s|, mps, mtu);
      CutCostStep(0, mps, mtu);
      assert |s| > 0 ==> PacketCount(Chunks(s, mps), mtu) == CeilDiv(|s| + 4, mtu) + PacketCount([], mtu);
    }
  }

  lemma RemainderStep(a: nat, n: nat)
    requires n > 0
    ensures (a + n) % n == a % n
  {
    DivStep(a, n);
    assert a == (a / n) * n + a % n;
    assert a + n == ((a + n) / n) * n + (a + n) % n;
    assert (a / n + 1) * n == (a / n) * n + n;
  }

  /** The exact number of ACL packets one write causes: for each full frame the fragments of a full frame, and for a
      short last frame its own. */
  lemma {:induction false} WritePacketCost(handle: Uint16, cid: Uint16, sdu: seq<Byte>, mps: Uint16, mtu: nat)
    requires mps > 0 && mtu > 0
    ensures forall i :: 0 <= i < |Segments(sdu, mps)| ==> |Segments(sdu, mps)[i]| <= 0xFFFF
    ensures var full := (|sdu| + 2) / mps; var last := (|sdu| + 2) % mps;
            |AllFragments(handle, PdusOf(cid, Segments(sdu, mps)), mtu)|
            == full * CeilDiv(mps + 4, mtu) + if last > 0 then CeilDiv(last + 4, mtu) else 0
  {
    WriteCost(sdu, mps);
    FragmentCount(handle, cid, Segments(sdu, mps), mtu);
    ChunkPacketCount(Framed(sdu), mps, mtu);
  }
}
