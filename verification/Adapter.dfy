/** The adapter and the connection callbacks as the objects they are: fields updated in place, loops over packets. */
module Adapters {
  import opened Bytes
  import opened AclPackets
  import opened Recombination
  import opened AclCredits
  import H = HciEvents

  /** The state captured by the callback that hci.Accept installs for a connection. */
  class Recombiner {
    const handle: Uint16
    var buf: seq<Byte>

    constructor (handle: Uint16)
      ensures this.handle == handle && buf == []
    {
      this.handle := handle;
      buf := [];
    }

    method OnPacket(q: AclPacket) returns (out: Output)
      modifies this
      ensures (buf, out) == Recombine(handle, old(buf), q)
    {
      if q.handle != handle {
        return Silent;
      }
      if q.boundary == CONTINUATION {
        buf := buf + q.payload;
      } else if q.boundary == FIRST_FROM_CONTROLLER {
        if |buf| > 0 {
          return Fault(UnexpectedStart);
        }
        buf := q.payload;
      } else {
        return Fault(UnhandledPacket);
      }
      out := Silent;
      if |buf| >= 4 && |buf| == Get16(buf, 0) + 4 {
        out := Pdu(buf);
        buf := [];
      }
    }

    /** A run of packets, one after the other: what goes to bufCh and what goes to errCh. */
    method OnPackets(qs: seq<AclPacket>) returns (pdus: seq<seq<Byte>>, faults: seq<Error>)
      modifies this
      ensures pdus == Pdus(handle, old(buf), qs) && faults == Faults(handle, old(buf), qs)
      ensures buf == Residue(handle, old(buf), qs)
    {
      pdus, faults := [], [];
      var i := 0;
      while i < |qs|
        invariant 0 <= i <= |qs|
        invariant pdus + Pdus(handle, buf, qs[i..]) == Pdus(handle, old(buf), qs)
        invariant faults + Faults(handle, buf, qs[i..]) == Faults(handle, old(buf), qs)
        invariant Residue(handle, buf, qs[i..]) == Residue(handle, old(buf), qs)
      {
        PacketTurn(handle, buf, qs, i, pdus, faults);
        var out := OnPacket(qs[i]);
        if out.Pdu? {
          pdus := pdus + [out.bytes];
        } else if out.Fault? {
          faults := faults + [out.error];
        }
        i := i + 1;
      }
    }
  }

  lemma PacketTurn(handle: Uint16, buf: seq<Byte>, qs: seq<AclPacket>, i: nat, pdus: seq<seq<Byte>>,
                   faults: seq<Error>)
    requires i < |qs|
    ensures var (next, out) := Recombine(handle, buf, qs[i]);
            && Residue(handle, buf, qs[i..]) == Residue(handle, next, qs[i + 1..])
            && pdus + Pdus(handle, buf, qs[i..])
               == (if out.Pdu? then pdus + [out.bytes] else pdus) + Pdus(handle, next, qs[i + 1..])
            && faults + Faults(handle, buf, qs[i..])
               == (if out.Fault? then faults + [out.error] else faults) + Faults(handle, next, qs[i + 1..])
  {
    var (next, out) := Recombine(handle, buf, qs[i]);
    assert qs[i..][0] == qs[i] && qs[i..][1..] == qs[i + 1..];
    if out.Pdu? {
      assert Pdus(handle, buf, qs[i..]) == [out.bytes] + Pdus(handle, next, qs[i + 1..]);
      AppendOne(pdus, out.bytes, Pdus(handle, next, qs[i + 1..]));
    } else {
      assert Pdus(handle, buf, qs[i..]) == Pdus(handle, next, qs[i + 1..]);
    }
    if out.Fault? {
      assert Faults(handle, buf, qs[i..]) == [out.error] + Faults(handle, next, qs[i + 1..]);
      AppendOne(faults, out.error, Faults(handle, next, qs[i + 1..]));
    } else {
      assert Faults(handle, buf, qs[i..]) == Faults(handle, next, qs[i + 1..]);
    }
  }

  /** The sends in a trace of ledger events. */
  function Sends(trace: seq<Event>): nat {
    if trace == [] then 0 else (if trace[0].Sent? then 1 else 0) + Sends(trace[1..])
  }

  /** The events of a trace that came from the controller. */
  function Arrived(trace: seq<Event>): seq<Event> {
    if trace == [] then [] else (if trace[0].Sent? then [] else [trace[0]]) + Arrived(trace[1..])
  }

  /** Each send of the trace happens while a buffer remains, and each event is waited for while none does. */
  predicate Patient(l: Ledger, trace: seq<Event>)
    decreases |trace|
  {
    trace == [] || ((trace[0].Sent? <==> l.remaining > 0) && Patient(Post(l, trace[0]), trace[1..]))
  }

  /** Nothing was waited for after the last send. */
  predicate EndsInSend(trace: seq<Event>) {
    trace == [] || trace[|trace| - 1].Sent?
  }

  lemma {:induction false} TraceAppend(l: Ledger, a: seq<Event>, b: seq<Event>)
    ensures PostAll(l, a + b) == PostAll(PostAll(l, a), b)
    ensures Sends(a + b) == Sends(a) + Sends(b) && Arrived(a + b) == Arrived(a) + Arrived(b)
    ensures Patient(l, a + b) <==> Patient(l, a) && Patient(PostAll(l, a), b)
    decreases |a|
  {
    if a == [] {
      assert a + b == b;
    } else {
      TraceAppend(Post(l, a[0]), a[1..], b);
      assert (a + b)[0] == a[0] && (a + b)[1..] == a[1..] + b;
      Associate(if a[0].Sent? then [] else [a[0]], Arrived(a[1..]), Arrived(b));
    }
  }

  lemma TraceExtend(l: Ledger, trace: seq<Event>, e: Event)
    ensures PostAll(l, trace + [e]) == Post(PostAll(l, trace), e)
    ensures Sends(trace + [e]) == Sends(trace) + if e.Sent? then 1 else 0
    ensures Arrived(trace + [e]) == Arrived(trace) + if e.Sent? then [] else [e]
    ensures Patient(l, trace + [e]) <==> Patient(l, trace) && (e.Sent? <==> PostAll(l, trace).remaining > 0)
  {
    TraceAppend(l, trace, [e]);
    assert [e][1..] == [];
  }

  lemma {:induction false} SentOrArrived(trace: seq<Event>)
    ensures |trace| == Sends(trace) + |Arrived(trace)|
  {
    if trace != [] {
      SentOrArrived(trace[1..]);
    }
  }

  class Adapter {
    var aclMTU: Uint16
    var aclPacketsRemaining: Uint16
    var aclPacketsPending: map<Uint16, Uint16>

    function View(): Ledger
      reads this
    {
      Ledger(aclPacketsRemaining, aclPacketsPending)
    }

    constructor ()
      ensures aclMTU == 1023 && View() == Ledger(0, map[])
    {
      aclMTU, aclPacketsRemaining, aclPacketsPending := 1023, 0, map[];
    }

    /** What LEReadBufferSize does with the controller's answer. */
    method OnBufferSize(length: Uint16, total: Byte)
      modifies this
      ensures aclMTU == length && aclPacketsRemaining == total && aclPacketsPending == old(aclPacketsPending)
    {
      aclMTU := length;
      aclPacketsRemaining := total;
    }

    /** The event loop's handling of one event, already parsed. */
    method OnNumberOfCompletedPackets(counts: seq<(Uint16, Uint16)>)
      modifies this
      ensures View() == Post(old(View()), Completed(counts)) && aclMTU == old(aclMTU)
    {
      var i := 0;
      while i < |counts|
        invariant 0 <= i <= |counts|
        invariant Wrap16(aclPacketsRemaining + Total(counts[i..])) == Wrap16(old(aclPacketsRemaining) + Total(counts))
        invariant aclPacketsPending == old(aclPacketsPending) && aclMTU == old(aclMTU)
      {
        assert Total(counts[i..]) == counts[i].1 + Total(counts[i + 1..]) by {
          assert counts[i..][1..] == counts[i + 1..];
        }
        WrapAdd(aclPacketsRemaining + counts[i].1, Total(counts[i + 1..]));
        aclPacketsRemaining := Wrap16(aclPacketsRemaining + counts[i].1);
        i := i + 1;
      }
    }

    method OnDisconnectionComplete(handle: Uint16)
      modifies this
      ensures View() == Post(old(View()), Disconnected(handle)) && aclMTU == old(aclMTU)
    {
      var pending := if handle in aclPacketsPending then aclPacketsPending[handle] else 0;
      aclPacketsRemaining := Wrap16(aclPacketsRemaining + pending);
      aclPacketsPending := aclPacketsPending - {handle};
    }

    method OnEvent(e: Event)
      requires !e.Sent?
      modifies this
      ensures View() == Post(old(View()), e) && aclMTU == old(aclMTU)
    {
      match e {
        case Completed(counts) => OnNumberOfCompletedPackets(counts);
        case Disconnected(handle) => OnDisconnectionComplete(handle);
      }
    }

    /** The reader that NewConn starts, over the packets it will read: it returns at the first it cannot parse. `data`
        are the data packets it has handed to the connections. */
    method ReadLoop(wire: seq<seq<Byte>>) returns (data: seq<AclPacket>, reading: bool)
      modifies this
      ensures (View(), reading) == H.Reader(old(View()), wire) && aclMTU == old(aclMTU)
      ensures data == H.Handed(wire)
    {
      data := [];
      var i := 0;
      while i < |wire|
        invariant 0 <= i <= |wire| && aclMTU == old(aclMTU)
        invariant H.Reader(View(), wire[i..]) == H.Reader(old(View()), wire)
        invariant data + H.Handed(wire[i..]) == H.Handed(wire)
      {
        assert wire[i..][0] == wire[i] && wire[i..][1..] == wire[i + 1..];
        var r := H.UnmarshalPacket(wire[i]);
        if r.Err? {
          return data, false;
        }
        if r.value.Counted? {
          H.NothingReadIsASend(wire[i]);
          OnEvent(r.value.event);
        } else if r.value.AclData? {
          AppendOne(data, r.value.packet, H.Handed(wire[i + 1..]));
          data := data + [r.value.packet];
        }
        i := i + 1;
      }
      reading := true;
    }

    /** hci.Conn.WritePacket once a buffer is free. */
    method TakeBuffer(handle: Uint16)
      requires aclPacketsRemaining > 0
      modifies this
      ensures View() == Post(old(View()), Sent(handle)) && aclMTU == old(aclMTU)
    {
      aclPacketsRemaining := aclPacketsRemaining - 1;
      var pending := if handle in aclPacketsPending then aclPacketsPending[handle] else 0;
      aclPacketsPending := aclPacketsPending[handle := Wrap16(pending as int + 1)];
    }

    /** The wait in WritePacket, woken by each event the reader handles; it is still waiting when they run out. */
    method AwaitBuffer(arrivals: seq<Event>) returns (taken: seq<Event>, unused: seq<Event>)
      requires forall e :: e in arrivals ==> !e.Sent?
      modifies this
      ensures Faithful(old(View()), View(), taken, 0, unused, arrivals) && aclMTU == old(aclMTU)
      ensures aclPacketsRemaining == 0 ==> unused == []
    {
      taken, unused := [], arrivals;
      while aclPacketsRemaining == 0 && unused != []
        invariant Faithful(old(View()), View(), taken, 0, unused, arrivals) && aclMTU == old(aclMTU)
        decreases |unused|
      {
        FaithfulArrival(old(View()), View(), taken, 0, unused, arrivals);
        taken := taken + [unused[0]];
        OnEvent(unused[0]);
        unused := unused[1..];
      }
    }

    /** The packet the loop of Write makes at i. */
    method CutPiece(handle: Uint16, buf: seq<Byte>, i: nat) returns (p: AclPacket)
      requires i < |buf|
      ensures p == PacketAt(handle, buf, aclMTU, i)
    {
      var pb := if i > 0 then CONTINUATION else FIRST_FROM_HOST;
      var j := i + aclMTU;
      if j > |buf| {
        j := |buf|;
      }
      p := AclPacket(pb, 0, handle, buf[i..j]);
    }

    /** One turn of that loop, once a buffer is free. */
    method WritePiece(handle: Uint16, buf: seq<Byte>, i: nat, packets: seq<AclPacket>)
      returns (next: nat, written: seq<AclPacket>)
      requires aclPacketsRemaining > 0 && i < |buf| && Writing(handle, buf, aclMTU, i, packets)
      modifies this
      ensures View() == Post(old(View()), Sent(handle)) && aclMTU == old(aclMTU)
      ensures next == i + aclMTU && |written| == |packets| + 1 && Writing(handle, buf, aclMTU, next, written)
    {
      var p := CutPiece(handle, buf, i);
      WritingGoesOn(handle, buf, aclMTU, i, packets, p);
      written := packets + [p];
      next := i + aclMTU;
      TakeBuffer(handle);
    }

    /** hci.Conn.Write. `arrivals` are the controller's events that wake it while it waits for a buffer; it takes one
        only when no buffer remains and a packet is still to be written, and is still waiting when they run out. The
        packets written are the fragments of the PDU in order; with an ACLMTU of zero it writes empty start packets for
        ever. */
    method Write(handle: Uint16, buf: seq<Byte>, arrivals: seq<Event>)
      returns (packets: seq<AclPacket>, trace: seq<Event>, unused: seq<Event>, finished: bool)
      requires forall e :: e in arrivals ==> !e.Sent?
      modifies this
      ensures View() == PostAll(old(View()), trace) && Patient(old(View()), trace)
      ensures Sends(trace) == |packets| && Arrived(trace) + unused == arrivals
      ensures finished ==> EndsInSend(trace)
      ensures aclMTU == old(aclMTU)
      ensures aclMTU > 0 ==> packets <= Fragments(handle, buf, aclMTU)
      ensures aclMTU > 0 ==> (finished <==> packets == Fragments(handle, buf, aclMTU))
      ensures aclMTU == 0 ==> (finished <==> buf == [])
      ensures aclMTU == 0 ==> forall q :: q in packets ==> q == AclPacket(FIRST_FROM_HOST, 0, handle, [])
      ensures !finished ==> aclPacketsRemaining == 0 && unused == []
    {
      packets, trace, unused, finished := [], [], arrivals, false;
      ghost var start := View();
      var i: nat := 0;
      while i < |buf|
        invariant aclMTU == old(aclMTU) && !finished
        invariant Faithful(start, View(), trace, |packets|, unused, arrivals)
        invariant i >= |buf| ==> EndsInSend(trace)
        invariant Writing(handle, buf, aclMTU, i, packets)
        decreases |unused|, aclPacketsRemaining
      {
        ghost var before, left := View(), unused;
        var taken;
        taken, unused := AwaitBuffer(unused);
        FaithfulOn(start, before, View(), trace, |packets|, left, arrivals, taken, unused);
        trace := trace + taken;
        if aclPacketsRemaining == 0 {
          WritingStops(handle, buf, aclMTU, i, packets);
          return;
        }
        FaithfulSend(start, View(), trace, |packets|, unused, arrivals, handle);
        trace := trace + [Sent(handle)];
        i, packets := WritePiece(handle, buf, i, packets);
      }
      finished := true;
      WritingEnds(handle, buf, aclMTU, i, packets);
    }
  }

  /** What the loop of Write has written when it stands at i: all but the packets of what is still to be cut, or with an
      ACLMTU of zero nothing but empty start packets. */
  predicate Writing(handle: Uint16, buf: seq<Byte>, mtu: nat, i: nat, packets: seq<AclPacket>) {
    if mtu > 0
    then packets + Label(handle, Chunks(Rest(buf, i), mtu), i == 0) == Fragments(handle, buf, mtu)
    else i == 0 && forall q :: q in packets ==> q == AclPacket(FIRST_FROM_HOST, 0, handle, [])
  }

  function PacketAt(handle: Uint16, buf: seq<Byte>, mtu: nat, i: nat): AclPacket
    requires i < |buf|
  {
    AclPacket(if i > 0 then CONTINUATION else FIRST_FROM_HOST, 0, handle, Piece(buf, mtu, i))
  }

  lemma NextPacket(handle: Uint16, buf: seq<Byte>, mtu: nat, i: nat)
    requires mtu > 0 && i < |buf|
    ensures Label(handle, Chunks(Rest(buf, i), mtu), i == 0)
            == [PacketAt(handle, buf, mtu, i)] + Label(handle, Chunks(Rest(buf, i + mtu), mtu), false)
  {
    NextPiece(buf, mtu, i);
  }

  lemma WritingGoesOn(handle: Uint16, buf: seq<Byte>, mtu: nat, i: nat, packets: seq<AclPacket>, p: AclPacket)
    requires Writing(handle, buf, mtu, i, packets) && i < |buf| && p == PacketAt(handle, buf, mtu, i)
    ensures Writing(handle, buf, mtu, i + mtu, packets + [p])
  {
    if mtu > 0 {
      NextPacket(handle, buf, mtu, i);
      AppendOne(packets, PacketAt(handle, buf, mtu, i), Label(handle, Chunks(Rest(buf, i + mtu), mtu), false));
    }
  }

  lemma WritingStops(handle: Uint16, buf: seq<Byte>, mtu: nat, i: nat, packets: seq<AclPacket>)
    requires Writing(handle, buf, mtu, i, packets) && i < |buf|
    ensures mtu > 0 ==> packets < Fragments(handle, buf, mtu)
  {
    if mtu > 0 {
      NextPacket(handle, buf, mtu, i);
    }
  }

  lemma WritingEnds(handle: Uint16, buf: seq<Byte>, mtu: nat, i: nat, packets: seq<AclPacket>)
    requires Writing(handle, buf, mtu, i, packets) && i >= |buf|
    ensures if mtu > 0 then packets == Fragments(handle, buf, mtu) else buf == []
  {
    assert packets + [] == packets;
  }

  /** The trace accounts for the ledger, the packets written and the events consumed. */
  predicate Faithful(start: Ledger, now: Ledger, trace: seq<Event>, written: nat, unused: seq<Event>,
                     arrivals: seq<Event>)
  {
    && now == PostAll(start, trace) && Patient(start, trace)
    && Sends(trace) == written && Arrived(trace) + unused == arrivals
    && (forall e :: e in unused ==> !e.Sent?)
  }

  lemma FaithfulArrival(start: Ledger, now: Ledger, trace: seq<Event>, written: nat, unused: seq<Event>,
                        arrivals: seq<Event>)
    requires Faithful(start, now, trace, written, unused, arrivals) && unused != [] && now.remaining == 0
    ensures !unused[0].Sent?
    ensures Faithful(start, Post(now, unused[0]), trace + [unused[0]], written, unused[1..], arrivals)
  {
    TraceExtend(start, trace, unused[0]);
    assert Arrived(trace) + unused == (Arrived(trace) + [unused[0]]) + unused[1..];
  }

  /** A wait in the course of a trace. Unless a buffer was free at once, it has taken an event. */
  lemma FaithfulOn(start: Ledger, before: Ledger, now: Ledger, trace: seq<Event>, written: nat, left: seq<Event>,
                   arrivals: seq<Event>, taken: seq<Event>, unused: seq<Event>)
    requires Faithful(start, before, trace, written, left, arrivals) && Faithful(before, now, taken, 0, unused, left)
    ensures Faithful(start, now, trace + taken, written, unused, arrivals)
    ensures |unused| < |left| || (now == before && unused == left)
  {
    TraceAppend(start, trace, taken);
    SentOrArrived(taken);
    Associate(Arrived(trace), Arrived(taken), unused);
  }

  lemma FaithfulSend(start: Ledger, now: Ledger, trace: seq<Event>, written: nat, unused: seq<Event>,
                     arrivals: seq<Event>, handle: Uint16)
    requires Faithful(start, now, trace, written, unused, arrivals) && now.remaining > 0
    ensures Faithful(start, Post(now, Sent(handle)), trace + [Sent(handle)], written + 1, unused, arrivals)
  {
    TraceExtend(start, trace, Sent(handle));
    assert Arrived(trace) + [] == Arrived(trace);
  }
}
