/** Fragmentation of L2CAP PDUs into ACL packets, the controller's relabelling, and recombination at the far end.
    Vol 3 Part A section 7.2 and Vol 4 Part E section 5.4.2. */
module Recombination {
  import opened Bytes
  import opened Frames
  import opened AclPackets

  const FIRST_FROM_HOST: Byte := 0
  const CONTINUATION: Byte := 1
  const FIRST_FROM_CONTROLLER: Byte := 2

  datatype Output = Silent | Pdu(bytes: seq<Byte>) | Fault(error: Error)

  /** The callback installed for one connection, on one ACL packet: its new buffer and what it passes on. */
  function Recombine(handle: Uint16, buf: seq<Byte>, q: AclPacket): (seq<Byte>, Output) {
    if q.handle != handle then (buf, Silent)
    else if q.boundary == CONTINUATION then Introspect(buf + q.payload)
    else if q.boundary != FIRST_FROM_CONTROLLER then (buf, Fault(UnhandledPacket))
    else if |buf| > 0 then (buf, Fault(UnexpectedStart))
    else Introspect(q.payload)
  }

  /** The packet is complete when its length is what its own header announces. */
  function Introspect(buf: seq<Byte>): (seq<Byte>, Output) {
    if SelfDelimiting(buf) then ([], Pdu(buf)) else (buf, Silent)
  }

  function Residue(handle: Uint16, buf: seq<Byte>, qs: seq<AclPacket>): seq<Byte>
    decreases |qs|
  {
    if qs == [] then buf else Residue(handle, Recombine(handle, buf, qs[0]).0, qs[1..])
  }

  function Pdus(handle: Uint16, buf: seq<Byte>, qs: seq<AclPacket>): seq<seq<Byte>>
    decreases |qs|
  {
    if qs == [] then []
    else
      var (next, out) := Recombine(handle, buf, qs[0]);
      (if out.Pdu? then [out.bytes] else []) + Pdus(handle, next, qs[1..])
  }

  /** The errors the packets of the run are answered with, in order. */
  function Faults(handle: Uint16, buf: seq<Byte>, qs: seq<AclPacket>): seq<Error>
    decreases |qs|
  {
    if qs == [] then []
    else
      var (next, out) := Recombine(handle, buf, qs[0]);
      (if out.Fault? then [out.error] else []) + Faults(handle, next, qs[1..])
  }

  predicate Clean(handle: Uint16, buf: seq<Byte>, qs: seq<AclPacket>) {
    Faults(handle, buf, qs) == []
  }

  /** The payloads of the packets that were for this connection and not refused. */
  function Taken(handle: Uint16, buf: seq<Byte>, qs: seq<AclPacket>): seq<Byte>
    decreases |qs|
  {
    if qs == [] then []
    else
      var (next, out) := Recombine(handle, buf, qs[0]);
      (if qs[0].handle == handle && !out.Fault? then qs[0].payload else []) + Taken(handle, next, qs[1..])
  }

  /** One packet: what was buffered and what it brought is what was passed on and what is buffered now. */
  lemma PacketConserved(handle: Uint16, buf: seq<Byte>, q: AclPacket)
    ensures var (next, out) := Recombine(handle, buf, q);
            buf + (if q.handle == handle && !out.Fault? then q.payload else [])
            == Concat(if out.Pdu? then [out.bytes] else []) + next
    ensures var out := Recombine(handle, buf, q).1; out.Pdu? ==> SelfDelimiting(out.bytes)
  {
    var (next, out) := Recombine(handle, buf, q);
    assert buf + [] == buf && [] + next == next && [] + q.payload == q.payload;
    if out.Pdu? {
      ConcatOne(out.bytes);
      assert out.bytes + [] == out.bytes;
    }
  }

  /** Recombination neither invents, loses nor reorders a byte, whatever packets arrive, and every PDU it passes on
      has the length its header announces. */
  lemma {:induction false} RecombinationConservation(handle: Uint16, buf: seq<Byte>, qs: seq<AclPacket>)
    ensures Concat(Pdus(handle, buf, qs)) + Residue(handle, buf, qs) == buf + Taken(handle, buf, qs)
    ensures forall i :: 0 <= i < |Pdus(handle, buf, qs)| ==> SelfDelimiting(Pdus(handle, buf, qs)[i])
    decreases |qs|
  {
    if qs != [] {
      var (next, out) := Recombine(handle, buf, qs[0]);
      var now := if out.Pdu? then [out.bytes] else [];
      var taken := if qs[0].handle == handle && !out.Fault? then qs[0].payload else [];
      RecombinationConservation(handle, next, qs[1..]);
      ConcatAppend(now, Pdus(handle, next, qs[1..]));
      PacketConserved(handle, buf, qs[0]);
      Glue(buf, taken, Concat(now), next, Taken(handle, next, qs[1..]), Concat(Pdus(handle, next, qs[1..])),
           Residue(handle, next, qs[1..]));
    }
  }

  lemma {:induction false} RunAppend(handle: Uint16, buf: seq<Byte>, a: seq<AclPacket>, b: seq<AclPacket>)
    ensures Residue(handle, buf, a + b) == Residue(handle, Residue(handle, buf, a), b)
    ensures Pdus(handle, buf, a + b) == Pdus(handle, buf, a) + Pdus(handle, Residue(handle, buf, a), b)
    ensures Faults(handle, buf, a + b) == Faults(handle, buf, a) + Faults(handle, Residue(handle, buf, a), b)
    decreases |a|
  {
    if a == [] {
      assert a + b == b;
    } else {
      var (next, out) := Recombine(handle, buf, a[0]);
      var rest := Residue(handle, next, a[1..]);
      RunAppend(handle, next, a[1..], b);
      assert (a + b)[0] == a[0] && (a + b)[1..] == a[1..] + b;
      Associate(if out.Pdu? then [out.bytes] else [], Pdus(handle, next, a[1..]), Pdus(handle, rest, b));
      Associate(if out.Fault? then [out.error] else [], Faults(handle, next, a[1..]), Faults(handle, rest, b));
    }
  }

  /** What the callback makes of a packet, flag by flag: another connection's is ignored, a continuation (1) is
      appended, a start (2) opens an empty buffer and is refused on any other, and every other flag is refused. */
  lemma FlagsRead(handle: Uint16, buf: seq<Byte>, q: AclPacket)
    ensures var (next, out) := Recombine(handle, buf, q);
            if q.handle != handle then next == buf && out == Silent
            else if q.boundary != 1 && q.boundary != 2 then next == buf && out == Fault(UnhandledPacket)
            else if q.boundary == 2 && buf != [] then next == buf && out == Fault(UnexpectedStart)
            else
              var grown := (if q.boundary == 1 then buf else []) + q.payload;
              if |grown| >= 4 && |grown| == grown[0] + 256 * (grown[1] as int) + 4 then next == [] && out == Pdu(grown)
              else next == grown && out == Silent
  {
    assert [] + q.payload == q.payload;
  }

  // ------------------------------------------------------------------ overrun

  /** The buffer holds more than its header announces. */
  predicate Overrun(buf: seq<Byte>) {
    |buf| >= 4 && |buf| > Get16(buf, 0) + 4
  }

  /** An overrun is for ever: whatever follows, that connection never passes on another PDU. */
  lemma {:induction false} OverrunIsForever(handle: Uint16, buf: seq<Byte>, qs: seq<AclPacket>)
    requires Overrun(buf)
    ensures Pdus(handle, buf, qs) == [] && Overrun(Residue(handle, buf, qs))
    decreases |qs|
  {
    if qs != [] {
      OverrunIsForever(handle, Recombine(handle, buf, qs[0]).0, qs[1..]);
    }
  }

  /** And only an overrun is: any other buffer between packets can still be completed. */
  lemma RecoverableUnlessOverrun(handle: Uint16, buf: seq<Byte>)
    requires !SelfDelimiting(buf)
    ensures (exists qs :: Pdus(handle, buf, qs) != []) <==> !Overrun(buf)
  {
    if Overrun(buf) {
      forall qs ensures Pdus(handle, buf, qs) == [] {
        OverrunIsForever(handle, buf, qs);
      }
    } else {
      var total: int := if |buf| >= 2 then Get16(buf, 0) as int + 4 else if |buf| == 1 then buf[0] as int + 4 else 4;
      var padding: seq<Byte> := seq(total - |buf|, i => 0);
      var q := AclPacket(CONTINUATION, 0, handle, padding);
      assert SelfDelimiting(buf + padding);
      assert Recombine(handle, buf, q).1.Pdu?;
      assert Pdus(handle, buf, [q]) != [];
    }
  }

  /** An overrun takes one packet on an idle connection. Whatever follows that packet, no PDU is ever passed on,
      exactly if its payload is longer than it announces, as that of an empty signalling frame and one more byte is. */
  lemma DeadAfterOnePacket(handle: Uint16, q: AclPacket)
    requires q.handle == handle && (q.boundary == FIRST_FROM_CONTROLLER || q.boundary == CONTINUATION)
    ensures (forall qs :: Pdus(handle, [], [q] + qs) == []) <==> Overrun(q.payload)
    ensures Overrun([0, 0, 5, 0, 1])
  {
    if Overrun(q.payload) {
      forall qs ensures Pdus(handle, [], [q] + qs) == [] {
        AfterOnePacket(handle, q, qs);
        OverrunIsForever(handle, q.payload, qs);
      }
    } else if SelfDelimiting(q.payload) {
      AfterOnePacket(handle, q, []);
      assert Pdus(handle, [], [q] + []) != [];
    } else {
      RecoverableUnlessOverrun(handle, q.payload);
      var qs :| Pdus(handle, q.payload, qs) != [];
      AfterOnePacket(handle, q, qs);
      assert Pdus(handle, [], [q] + qs) != [];
    }
  }

  lemma AfterOnePacket(handle: Uint16, q: AclPacket, qs: seq<AclPacket>)
    requires q.handle == handle && (q.boundary == FIRST_FROM_CONTROLLER || q.boundary == CONTINUATION)
    ensures Pdus(handle, [], [q] + qs) == [] <==> !SelfDelimiting(q.payload) && Pdus(handle, q.payload, qs) == []
  {
    assert [] + q.payload == q.payload;
    assert ([q] + qs)[1..] == qs;
  }

  // ------------------------------------------------------------------ non-interference

  function ForHandle(handle: Uint16, qs: seq<AclPacket>): seq<AclPacket> {
    if qs == [] then [] else (if qs[0].handle == handle then [qs[0]] else []) + ForHandle(handle, qs[1..])
  }

  /** A connection's PDUs, faults and buffer depend on its own packets alone, however other connections' packets are
      interleaved with them. */
  lemma {:induction false} HandlesDoNotInterfere(handle: Uint16, buf: seq<Byte>, qs: seq<AclPacket>)
    ensures Pdus(handle, buf, qs) == Pdus(handle, buf, ForHandle(handle, qs))
    ensures Residue(handle, buf, qs) == Residue(handle, buf, ForHandle(handle, qs))
    ensures Faults(handle, buf, qs) == Faults(handle, buf, ForHandle(handle, qs))
    decreases |qs|
  {
    if qs != [] {
      HandlesDoNotInterfere(handle, Recombine(handle, buf, qs[0]).0, qs[1..]);
      assert ForHandle(handle, qs) == (if qs[0].handle == handle then [qs[0]] else []) + ForHandle(handle, qs[1..]);
      if qs[0].handle == handle {
        assert ForHandle(handle, qs)[1..] == ForHandle(handle, qs[1..]);
      } else {
        assert ForHandle(handle, qs) == ForHandle(handle, qs[1..]);
      }
    }
  }

  // ------------------------------------------------------------------ fragmentation

  /** Packets for consecutive pieces of a PDU: the first is flagged as a start, the others as continuations. */
  function Label(handle: Uint16, pieces: seq<seq<Byte>>, start: bool): (qs: seq<AclPacket>)
    ensures |qs| == |pieces|
    decreases |pieces|
  {
    if pieces == [] then []
    else
      [AclPacket(if start then FIRST_FROM_HOST else CONTINUATION, 0, handle, pieces[0])]
      + Label(handle, pieces[1..], false)
  }

  /** What hci.Conn.Write sends for one PDU when ACLMTU is positive. */
  function Fragments(handle: Uint16, pdu: seq<Byte>, mtu: nat): seq<AclPacket>
    requires mtu > 0
  {
    Label(handle, Chunks(pdu, mtu), true)
  }

  lemma {:induction false} Labelled(handle: Uint16, pieces: seq<seq<Byte>>, start: bool, i: nat)
    requires i < |pieces|
    ensures Label(handle, pieces, start)[i] == AclPacket(if start && i == 0 then 0 else 1, 0, handle, pieces[i])
    decreases i
  {
    if i > 0 {
      Labelled(handle, pieces[1..], false, i - 1);
    }
  }

  /** The packets of one PDU: the first carries the flag 0 and the others 1, the pieces are as long as ACLMTU allows,
      and together they are the PDU. On the way a 0 becomes a 2, and nothing else changes. */
  lemma FlagsWritten(handle: Uint16, pdu: seq<Byte>, mtu: nat)
    requires mtu > 0
    ensures var qs := Fragments(handle, pdu, mtu);
            && |qs| == CeilDiv(|pdu|, mtu)
            && (forall i :: 0 <= i < |qs| ==>
                  && qs[i] == AclPacket(if i == 0 then 0 else 1, 0, handle, Chunks(pdu, mtu)[i])
                  && 0 < |qs[i].payload| <= mtu && (i < |qs| - 1 ==> |qs[i].payload| == mtu))
            && Concat(Chunks(pdu, mtu)) == pdu
    ensures forall q: AclPacket ::
              Relay(q) == AclPacket(if q.boundary == 0 then 2 else q.boundary, q.broadcast, q.handle, q.payload)
  {
    ChunkShape(pdu, mtu);
    ConcatChunks(pdu, mtu);
    forall i | 0 <= i < |Chunks(pdu, mtu)|
      ensures Fragments(handle, pdu, mtu)[i] == AclPacket(if i == 0 then 0 else 1, 0, handle, Chunks(pdu, mtu)[i])
    {
      Labelled(handle, Chunks(pdu, mtu), true, i);
    }
  }

  function AllFragments(handle: Uint16, pdus: seq<seq<Byte>>, mtu: nat): seq<AclPacket>
    requires mtu > 0
  {
    if pdus == [] then [] else Fragments(handle, pdus[0], mtu) + AllFragments(handle, pdus[1..], mtu)
  }

  /** The controllers between the two hosts: a host's start packet arrives as a controller's start packet. */
  function Relay(q: AclPacket): AclPacket {
    if q.boundary == FIRST_FROM_HOST then q.(boundary := FIRST_FROM_CONTROLLER) else q
  }

  function RelayAll(qs: seq<AclPacket>): (r: seq<AclPacket>)
    ensures |r| == |qs|
  {
    if qs == [] then [] else [Relay(qs[0])] + RelayAll(qs[1..])
  }

  lemma {:induction false} RelayAppend(a: seq<AclPacket>, b: seq<AclPacket>)
    ensures RelayAll(a + b) == RelayAll(a) + RelayAll(b)
  {
    if a == [] {
      assert a + b == b;
    } else {
      RelayAppend(a[1..], b);
      assert (a + b)[0] == a[0] && (a + b)[1..] == a[1..] + b;
      Associate([Relay(a[0])], RelayAll(a[1..]), RelayAll(b));
    }
  }

  /** A proper prefix of a PDU does not look complete: no PDU is passed on early. */
  lemma PrefixIncomplete(pdu: seq<Byte>, k: nat)
    requires SelfDelimiting(pdu) && k < |pdu|
    ensures Introspect(pdu[..k]) == (pdu[..k], Silent)
  {
  }

  lemma {:induction false} ContinuationsRecombine(handle: Uint16, pdu: seq<Byte>, k: nat, mtu: nat)
    requires SelfDelimiting(pdu) && mtu > 0 && k < |pdu|
    ensures var qs := RelayAll(Label(handle, Chunks(pdu[k..], mtu), false));
            Pdus(handle, pdu[..k], qs) == [pdu] && Residue(handle, pdu[..k], qs) == [] && Clean(handle, pdu[..k], qs)
    decreases |pdu| - k
  {
    var pieces := Chunks(pdu[k..], mtu);
    var qs := RelayAll(Label(handle, pieces, false));
    var next := if |pdu| - k <= mtu then |pdu| else k + mtu;
    assert pdu[..k] + pieces[0] == pdu[..next];
    assert qs[1..] == RelayAll(Label(handle, pieces[1..], false));
    if next == |pdu| {
      assert pdu[..next] == pdu;
      assert qs[1..] == [];
      assert Pdus(handle, [], qs[1..]) == [];
    } else {
      PrefixIncomplete(pdu, next);
      assert pdu[k..][mtu..] == pdu[next..];
      ContinuationsRecombine(handle, pdu, next, mtu);
    }
  }

  lemma FragmentsRecombine(handle: Uint16, pdu: seq<Byte>, mtu: nat)
    requires SelfDelimiting(pdu) && mtu > 0
    ensures var qs := RelayAll(Fragments(handle, pdu, mtu));
            Pdus(handle, [], qs) == [pdu] && Residue(handle, [], qs) == [] && Clean(handle, [], qs)
  {
    var pieces := Chunks(pdu, mtu);
    var qs := RelayAll(Fragments(handle, pdu, mtu));
    assert qs[1..] == RelayAll(Label(handle, pieces[1..], false));
    if |pdu| <= mtu {
      assert qs[1..] == [];
      assert Pdus(handle, [], qs[1..]) == [];
    } else {
      PrefixIncomplete(pdu, mtu);
      ContinuationsRecombine(handle, pdu, mtu, mtu);
    }
  }

  lemma {:induction false} AllFragmentsRecombine(handle: Uint16, pdus: seq<seq<Byte>>, mtu: nat)
    requires mtu > 0 && forall i :: 0 <= i < |pdus| ==> SelfDelimiting(pdus[i])
    ensures var qs := RelayAll(AllFragments(handle, pdus, mtu));
            Pdus(handle, [], qs) == pdus && Residue(handle, [], qs) == [] && Clean(handle, [], qs)
    decreases |pdus|
  {
    if pdus != [] {
      var first, rest := Fragments(handle, pdus[0], mtu), AllFragments(handle, pdus[1..], mtu);
      RelayAppend(first, rest);
      FragmentsRecombine(handle, pdus[0], mtu);
      AllFragmentsRecombine(handle, pdus[1..], mtu);
      RunAppend(handle, [], RelayAll(first), RelayAll(rest));
      assert [pdus[0]] + pdus[1..] == pdus;
    }
  }

  /** The fragmentation round trip, at any positive ACLMTU, even below the four header bytes: a list of PDUs is
      recombined to itself exactly when every one of them carries its true length. */
  lemma FragmentationRoundTrip(handle: Uint16, pdus: seq<seq<Byte>>, mtu: nat)
    requires mtu > 0
    ensures Pdus(handle, [], RelayAll(AllFragments(handle, pdus, mtu))) == pdus
            <==> (forall i :: 0 <= i < |pdus| ==> SelfDelimiting(pdus[i]))
  {
    RecombinationConservation(handle, [], RelayAll(AllFragments(handle, pdus, mtu)));
    if forall i :: 0 <= i < |pdus| ==> SelfDelimiting(pdus[i]) {
      AllFragmentsRecombine(handle, pdus, mtu);
    }
  }

  // ------------------------------------------------------------------ unsynchronised writers

  lemma {:induction false} PartialResidue(handle: Uint16, pdu: seq<Byte>, at: nat, mtu: nat, k: nat)
    requires SelfDelimiting(pdu) && mtu > 0 && 0 < at < |pdu|
    requires k <= |Chunks(pdu[at..], mtu)|
    ensures var qs := RelayAll(Label(handle, Chunks(pdu[at..], mtu), false));
            Residue(handle, pdu[..at], qs[..k]) == [] <==> k == |qs|
    decreases k
  {
    if k > 0 {
      var pieces := Chunks(pdu[at..], mtu);
      var qs := RelayAll(Label(handle, pieces, false));
      var next := if |pdu| - at <= mtu then |pdu| else at + mtu;
      assert pdu[..at] + pieces[0] == pdu[..next];
      assert qs[..k][1..] == qs[1..][..k - 1];
      if next == |pdu| {
        assert pdu[..next] == pdu;
        assert qs[..k][1..] == [];
      } else {
        PrefixIncomplete(pdu, next);
        assert pdu[at..][mtu..] == pdu[next..];
        PartialResidue(handle, pdu, next, mtu, k - 1);
      }
    }
  }

  /** hci.Conn.Write takes no lock across the fragments of one PDU, and signalling packets go out beside it. After k of
      a PDU's fragments, a start packet of another PDU on the same connection is refused by the far end exactly when
      the first PDU has begun and is not finished; so PDUs of a single fragment are safe and no others. */
  lemma StartAmidFragments(handle: Uint16, pdu: seq<Byte>, mtu: nat, k: nat, q: AclPacket)
    requires SelfDelimiting(pdu) && mtu > 0 && k <= |Fragments(handle, pdu, mtu)|
    requires q.handle == handle && q.boundary == FIRST_FROM_CONTROLLER
    ensures var buf := Residue(handle, [], RelayAll(Fragments(handle, pdu, mtu))[..k]);
            Recombine(handle, buf, q).1 == Fault(UnexpectedStart) <==> 0 < k < |Fragments(handle, pdu, mtu)|
  {
    var pieces := Chunks(pdu, mtu);
    var qs := RelayAll(Fragments(handle, pdu, mtu));
    if k > 0 {
      assert qs[..k][1..] == qs[1..][..k - 1];
      assert qs[1..] == RelayAll(Label(handle, pieces[1..], false));
      if |pdu| <= mtu {
        assert qs[..k][1..] == [];
      } else {
        PrefixIncomplete(pdu, mtu);
        PartialResidue(handle, pdu, mtu, mtu, k - 1);
      }
    }
  }
}
