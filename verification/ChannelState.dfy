/** The receive and credit state of one connection-oriented channel, as values.
    Vol 3 Part A sections 3.4, 4.24 and 10.1 of the Bluetooth Core Specification 5.3. */
module ChannelStates {
  import opened Bytes

  const INITIAL_CREDITS: Uint16 := 500
  const CREDIT_REFILL: Uint16 := 500
  const CREDIT_LOW_WATER: Uint16 := 70
  const MAX_RX_MPS: Uint16 := 1004

  /** The fields of ConnectionOrientedChannel that its methods read or change. `delivered` is every
      SDU handed to the reader so far, in order. */
  datatype ChannelState = ChannelState(
    rxCID: Uint16, txCID: Uint16, txMPS: Uint16, rxMPS: Uint16, rxMTU: Uint16,
    txCredits: Uint16, rxCredits: Uint16, rxBuf: seq<Byte>, rxLeft: Uint16, delivered: seq<seq<Byte>>)

  /** What `receive` writes back on the signalling channel. */
  datatype Reply = Quiet | GrantCredits(credits: Uint16) | RequestDisconnect

  /** Approve: fixes the receive limits and opens the receive window. */
  function Approved(c: ChannelState, rxMTU: Uint16): ChannelState {
    c.(rxMTU := rxMTU, rxMPS := if rxMTU > MAX_RX_MPS then MAX_RX_MPS else rxMTU, rxCredits := INITIAL_CREDITS)
  }

  /** The limits as the source has them. */
  lemma ApprovedLimits(c: ChannelState, rxMTU: Uint16)
    ensures Approved(c, rxMTU)
            == c.(rxMTU := rxMTU, rxMPS := if rxMTU > 1004 then 1004 else rxMTU, rxCredits := 500)
  {
  }

  /** The first guard of `receive`: no credit, or a frame too short to open an SDU. */
  predicate Unreadable(c: ChannelState, buf: seq<Byte>) {
    c.rxCredits == 0 || (c.rxLeft == 0 && |buf| < 2)
  }

  /** Bytes of the current SDU still expected once the frame's header, if it has one, is read. */
  function LeftAfterHeader(c: ChannelState, buf: seq<Byte>): Uint16
    requires !Unreadable(c, buf)
  {
    if c.rxLeft == 0 then Get16(buf, 0) else c.rxLeft
  }

  /** The frame's share of the SDU. */
  function Body(c: ChannelState, buf: seq<Byte>): seq<Byte>
    requires !Unreadable(c, buf)
  {
    if c.rxLeft == 0 then buf[2..] else buf
  }

  /** The second guard of `receive`. */
  predicate Oversized(c: ChannelState, buf: seq<Byte>)
    requires !Unreadable(c, buf)
  {
    |Body(c, buf)| > LeftAfterHeader(c, buf) || |Body(c, buf)| > c.rxMPS || LeftAfterHeader(c, buf) > c.rxMTU
  }

  /** One call of `receive`. The second refusal comes after the credit is charged and the header consumed. */
  function Receive(c: ChannelState, buf: seq<Byte>): (r: (ChannelState, Reply)) {
    if Unreadable(c, buf) then (c, RequestDisconnect)
    else
      var left := LeftAfterHeader(c, buf);
      var body := Body(c, buf);
      var charged := c.(rxCredits := c.rxCredits - 1, rxLeft := left);
      if Oversized(c, buf) then (charged, RequestDisconnect)
      else
        var grown := c.rxBuf + body;
        var stored :=
          if |body| == left
          then charged.(rxBuf := [], rxLeft := 0, delivered := c.delivered + [grown])
          else charged.(rxBuf := grown, rxLeft := left - |body|);
        if stored.rxCredits <= CREDIT_LOW_WATER
        then (stored.(rxCredits := stored.rxCredits + CREDIT_REFILL), GrantCredits(CREDIT_REFILL))
        else (stored, Quiet)
  }

  /** `receive` over a run of frames. */
  function ReceiveAll(c: ChannelState, frames: seq<seq<Byte>>): ChannelState
    decreases |frames|
  {
    if frames == [] then c else ReceiveAll(Receive(c, frames[0]).0, frames[1..])
  }

  /** No frame of the run is answered with a disconnection request. */
  predicate Accepts(c: ChannelState, frames: seq<seq<Byte>>)
    decreases |frames|
  {
    frames == [] || (!Receive(c, frames[0]).1.RequestDisconnect? && Accepts(Receive(c, frames[0]).0, frames[1..]))
  }

  lemma {:induction false} ReceiveAllAppend(c: ChannelState, a: seq<seq<Byte>>, b: seq<seq<Byte>>)
    ensures ReceiveAll(c, a + b) == ReceiveAll(ReceiveAll(c, a), b)
    ensures Accepts(c, a + b) <==> Accepts(c, a) && Accepts(ReceiveAll(c, a), b)
    decreases |a|
  {
    if a == [] {
      assert a + b == b;
    } else {
      ReceiveAllAppend(Receive(c, a[0]).0, a[1..], b);
      assert (a + b)[1..] == a[1..] + b;
    }
  }

  lemma {:induction false} RunKeepsConfiguration(c: ChannelState, frames: seq<seq<Byte>>)
    ensures var d := ReceiveAll(c, frames);
            d == c.(rxCredits := d.rxCredits, rxBuf := d.rxBuf, rxLeft := d.rxLeft, delivered := d.delivered)
    decreases |frames|
  {
    if frames != [] {
      RunKeepsConfiguration(Receive(c, frames[0]).0, frames[1..]);
    }
  }

  /** Receiving does not look at the transmit credits. */
  lemma {:induction false} TxCreditsDoNotMatter(c: ChannelState, d: ChannelState, frames: seq<seq<Byte>>)
    requires d == c.(txCredits := d.txCredits)
    ensures ReceiveAll(d, frames) == ReceiveAll(c, frames).(txCredits := d.txCredits)
    ensures Accepts(d, frames) <==> Accepts(c, frames)
    decreases |frames|
  {
    if frames != [] {
      TxCreditsDoNotMatter(Receive(c, frames[0]).0, Receive(d, frames[0]).0, frames[1..]);
    }
  }

  lemma {:induction false} DeliveredGrows(c: ChannelState, frames: seq<seq<Byte>>)
    ensures c.delivered <= ReceiveAll(c, frames).delivered
    decreases |frames|
  {
    if frames != [] {
      DeliveredGrows(Receive(c, frames[0]).0, frames[1..]);
    }
  }

  // ------------------------------------------------------------------ reassembly

  /** An SDU as `Write` puts it on the wire: a 16-bit length, truncated as the code truncates it, then the bytes. */
  function Framed(sdu: seq<Byte>): seq<Byte> {
    LE16(Wrap16(|sdu|)) + sdu
  }

  function FramedAll(sdus: seq<seq<Byte>>): seq<Byte> {
    Concat(Map(Framed, sdus))
  }

  lemma FramedAllAppend(a: seq<seq<Byte>>, b: seq<seq<Byte>>)
    ensures FramedAll(a + b) == FramedAll(a) + FramedAll(b)
  {
    MapAppend(Framed, a, b);
    ConcatAppend(Map(Framed, a), Map(Framed, b));
  }

  /** What every reachable channel keeps: nothing is buffered between SDUs, and a buffered start fits the MTU. */
  ghost predicate Coherent(c: ChannelState) {
    && (c.rxLeft == 0 ==> c.rxBuf == [])
    && (c.rxBuf != [] ==> |c.rxBuf| + c.rxLeft <= c.rxMTU)
  }

  /** The channel is between SDUs. */
  predicate Idle(c: ChannelState) {
    c.rxLeft == 0 && c.rxBuf == []
  }

  /** The announced but incomplete SDU, as it appeared on the wire. */
  function Pending(c: ChannelState): seq<Byte> {
    if c.rxLeft == 0 then [] else LE16(Wrap16(|c.rxBuf| + c.rxLeft)) + c.rxBuf
  }

  /** The bytes of a frame that changed the reassembly state: all of an accepted frame, the length of a
      frame refused after it announced a non-empty SDU, nothing of any other refused frame. */
  function Consumed(c: ChannelState, buf: seq<Byte>): seq<Byte> {
    if Unreadable(c, buf) then []
    else if !Oversized(c, buf) then buf
    else if c.rxLeft == 0 && Get16(buf, 0) != 0 then buf[..2]
    else []
  }

  function ConsumedAll(c: ChannelState, frames: seq<seq<Byte>>): seq<Byte>
    decreases |frames|
  {
    if frames == [] then [] else Consumed(c, frames[0]) + ConsumedAll(Receive(c, frames[0]).0, frames[1..])
  }

  lemma ReceiveKeepsConfiguration(c: ChannelState, buf: seq<Byte>)
    ensures var d := Receive(c, buf).0;
            d == c.(rxCredits := d.rxCredits, rxBuf := d.rxBuf, rxLeft := d.rxLeft, delivered := d.delivered)
    ensures |c.delivered| <= |Receive(c, buf).0.delivered| && c.delivered <= Receive(c, buf).0.delivered
  {
  }

  /** A refused frame delivers nothing; at most its header becomes pending. */
  lemma RefusedStream(c: ChannelState, buf: seq<Byte>)
    requires Coherent(c) && (Unreadable(c, buf) || Oversized(c, buf))
    ensures var d := Receive(c, buf).0;
            Coherent(d) && d.delivered == c.delivered && Pending(c) + Consumed(c, buf) == Pending(d)
  {
    if !Unreadable(c, buf) && c.rxLeft == 0 {
      RefusedOpening(c, buf);
    } else {
      assert Receive(c, buf).0 == c.(rxCredits := Receive(c, buf).0.rxCredits) && Consumed(c, buf) == [];
      assert Pending(c) + [] == Pending(c);
    }
  }

  /** Refused after its length has been read. */
  lemma RefusedOpening(c: ChannelState, buf: seq<Byte>)
    requires Coherent(c) && !Unreadable(c, buf) && Oversized(c, buf) && c.rxLeft == 0
    ensures var d := Receive(c, buf).0;
            Coherent(d) && d.delivered == c.delivered && Pending(c) + Consumed(c, buf) == Pending(d)
  {
    var d := c.(rxCredits := c.rxCredits - 1, rxLeft := Get16(buf, 0));
    assert Receive(c, buf).0 == d;
    LE16OfGet16(buf, 0);
    PendingOpened(d);
  }

  lemma PendingOpened(d: ChannelState)
    requires d.rxBuf == []
    ensures Pending(d) == if d.rxLeft == 0 then [] else LE16(d.rxLeft)
  {
    assert Wrap16(|d.rxBuf| + d.rxLeft) == d.rxLeft;
    assert LE16(d.rxLeft) + [] == LE16(d.rxLeft);
  }

  /** An accepted frame, seen as header and body. */
  lemma AcceptedBytes(c: ChannelState, buf: seq<Byte>)
    requires Coherent(c) && !Unreadable(c, buf)
    ensures Pending(c) + buf == LE16(Wrap16(|c.rxBuf| + LeftAfterHeader(c, buf))) + (c.rxBuf + Body(c, buf))
  {
    if c.rxLeft == 0 {
      LE16OfGet16(buf, 0);
      assert [] + buf == buf[..2] + ([] + buf[2..]);
    } else {
      Associate(LE16(Wrap16(|c.rxBuf| + c.rxLeft)), c.rxBuf, buf);
    }
  }

  lemma {:induction false} AcceptedStream(c: ChannelState, buf: seq<Byte>)
    requires Coherent(c) && !Unreadable(c, buf) && !Oversized(c, buf)
    ensures var d := Receive(c, buf).0; var grown := c.rxBuf + Body(c, buf);
            && Coherent(d)
            && if |Body(c, buf)| == LeftAfterHeader(c, buf)
               then d.delivered == c.delivered + [grown] && Pending(c) + buf == Framed(grown)
                    && Pending(d) == [] && |grown| <= c.rxMTU
               else d.delivered == c.delivered && Pending(c) + buf == Pending(d)
  {
    AcceptedBytes(c, buf);
  }

  /** One frame, accepted or refused: what was pending plus what the frame contributed is what was delivered plus
      what is pending now, and a delivered SDU fits the MTU. */
  lemma ReceiveStream(c: ChannelState, buf: seq<Byte>)
    requires Coherent(c)
    ensures var d := Receive(c, buf).0; var news := d.delivered[|c.delivered|..];
            && Coherent(d)
            && Pending(c) + Consumed(c, buf) == FramedAll(news) + Pending(d)
            && (forall i :: 0 <= i < |news| ==> |news[i]| <= c.rxMTU)
  {
    var d := Receive(c, buf).0;
    if Unreadable(c, buf) || Oversized(c, buf) {
      RefusedStream(c, buf);
      assert d.delivered[|c.delivered|..] == [];
    } else {
      AcceptedStream(c, buf);
      if d.delivered == c.delivered {
        assert d.delivered[|c.delivered|..] == [];
      } else {
        assert d.delivered[|c.delivered|..] == [c.rxBuf + Body(c, buf)];
        ConcatOne(Framed(c.rxBuf + Body(c, buf)));
      }
    }
  }

  /** Reassembly inverts framing, over any frames at all: the bytes the channel consumed are exactly the delivered
      SDUs, each behind its own length, followed by the SDU still being assembled. */
  lemma {:induction false} ReassemblyConservation(c: ChannelState, frames: seq<seq<Byte>>)
    requires Coherent(c)
    ensures var d := ReceiveAll(c, frames);
            && Coherent(d)
            && c.delivered <= d.delivered
            && Pending(c) + ConsumedAll(c, frames) == FramedAll(d.delivered[|c.delivered|..]) + Pending(d)
            && (forall i :: |c.delivered| <= i < |d.delivered| ==> |d.delivered[i]| <= c.rxMTU)
    decreases |frames|
  {
    if frames == [] {
      assert c.delivered[|c.delivered|..] == [];
    } else {
      var m := Receive(c, frames[0]).0;
      var d := ReceiveAll(m, frames[1..]);
      ReceiveKeepsConfiguration(c, frames[0]);
      ReceiveStream(c, frames[0]);
      ReassemblyConservation(m, frames[1..]);
      var first, rest := m.delivered[|c.delivered|..], d.delivered[|m.delivered|..];
      SuffixSplit(c.delivered, m.delivered, d.delivered);
      FramedAllAppend(first, rest);
      Glue(Pending(c), Consumed(c, frames[0]), FramedAll(first), Pending(m),
           ConsumedAll(m, frames[1..]), FramedAll(rest), Pending(d));
      forall i | |c.delivered| <= i < |d.delivered| ensures |d.delivered[i]| <= c.rxMTU {
        assert i < |m.delivered| ==> d.delivered[i] == first[i - |c.delivered|];
      }
    }
  }

  // ------------------------------------------------------------------ receive credits

  function ChargedFrames(c: ChannelState, frames: seq<seq<Byte>>): nat
    decreases |frames|
  {
    if frames == [] then 0
    else (if Unreadable(c, frames[0]) then 0 else 1) + ChargedFrames(Receive(c, frames[0]).0, frames[1..])
  }

  function CreditsGranted(c: ChannelState, frames: seq<seq<Byte>>): nat
    decreases |frames|
  {
    if frames == [] then 0
    else
      (match Receive(c, frames[0]).1 case GrantCredits(n) => n case _ => 0)
      + CreditsGranted(Receive(c, frames[0]).0, frames[1..])
  }

  /** When a frame is refused: no credit is left, it is too short to announce an SDU, or what it brings passes the
      announced length or the MPS, or the announced length the MTU. */
  lemma RefusedWhen(c: ChannelState, buf: seq<Byte>)
    ensures Receive(c, buf).1 == RequestDisconnect <==>
              || c.rxCredits == 0
              || (c.rxLeft == 0 &&
                    (|buf| < 2 ||
                     (var announced := buf[0] as int + 256 * (buf[1] as int);
                      |buf| - 2 > announced || |buf| - 2 > c.rxMPS || announced > c.rxMTU)))
              || (c.rxLeft > 0 && (|buf| > c.rxLeft || |buf| > c.rxMPS || c.rxLeft > c.rxMTU))
  {
  }

  /** What a frame that is not refused does to the window: the credit it costs, and 500 more at once if that leaves 70
      or fewer; and the peer is told exactly then. */
  lemma AcceptedFrameCredits(c: ChannelState, buf: seq<Byte>)
    requires Receive(c, buf).1 != RequestDisconnect
    ensures var (d, reply) := Receive(c, buf);
            && (reply == GrantCredits(500) <==> c.rxCredits <= 71)
            && (reply == Quiet <==> c.rxCredits > 71)
            && d.rxCredits as int == c.rxCredits - 1 + (if c.rxCredits <= 71 then 500 else 0)
  {
  }

  /** What a refused frame does to the channel: nothing, unless it was readable; then it has cost a credit, and its
      length, if it began with one, is what the channel now waits for. */
  lemma RefusedFrameLeaves(c: ChannelState, buf: seq<Byte>)
    requires Receive(c, buf).1 == RequestDisconnect
    ensures Receive(c, buf).0 ==
              if c.rxCredits == 0 || (c.rxLeft == 0 && |buf| < 2) then c
              else c.(rxCredits := c.rxCredits - 1,
                      rxLeft := if c.rxLeft == 0 then buf[0] as int + 256 * (buf[1] as int) else c.rxLeft)
  {
  }

  /** Every frame past the first guard costs one credit, every indication returns what it grants, and the balance
      never leaves 0..570; while nothing is refused it never rests below 71. */
  lemma {:induction false} ReceiveCreditBalance(c: ChannelState, frames: seq<seq<Byte>>)
    ensures var d := ReceiveAll(c, frames);
            && d.rxCredits as int == c.rxCredits + CreditsGranted(c, frames) - ChargedFrames(c, frames)
            && CreditsGranted(c, frames) % 500 == 0
            && (c.rxCredits <= 570 ==> d.rxCredits <= 570)
            && (frames != [] && Accepts(c, frames) ==> d.rxCredits > 70)
    decreases |frames|
  {
    if frames != [] {
      ReceiveCreditBalance(Receive(c, frames[0]).0, frames[1..]);
    }
  }

  /** Credits are granted only for accepted frames: a window at zero refuses everything after it, whatever the
      frames. */
  lemma {:induction false} NoCreditIsForever(c: ChannelState, frames: seq<seq<Byte>>)
    requires c.rxCredits == 0
    ensures ReceiveAll(c, frames) == c
    ensures Accepts(c, frames) <==> frames == []
  {
    if frames != [] {
      NoCreditIsForever(c, frames[1..]);
    }
  }

  // ------------------------------------------------------------------ transmit credits

  /** A flow control credit indication: zero is ignored, and a grant that would pass 65535 is refused whole. */
  function Indicate(c: ChannelState, credits: Uint16): (ChannelState, Reply) {
    if credits == 0 then (c, Quiet)
    else if c.txCredits + credits > 0xFFFF then (c, RequestDisconnect)
    else (c.(txCredits := c.txCredits + credits), Quiet)
  }

  /** The exact effect of an indication. */
  lemma IndicationTaken(c: ChannelState, n: Uint16)
    ensures Indicate(c, n).1 == RequestDisconnect <==> n > 0 && c.txCredits + n > 65535
    ensures Indicate(c, n).1 != RequestDisconnect ==> Indicate(c, n) == (c.(txCredits := c.txCredits + n), Quiet)
    ensures Indicate(c, n).1 == RequestDisconnect ==> Indicate(c, n).0 == c
  {
  }

  datatype TxEvent = FrameSent | Indicated(credits: Uint16)

  /** The transmit balance over sends and indications; a send waits until the balance is positive. */
  predicate Sendable(c: ChannelState, events: seq<TxEvent>)
    decreases |events|
  {
    events == [] || ((events[0].FrameSent? ==> c.txCredits > 0) && Sendable(TxStep(c, events[0]), events[1..]))
  }

  function TxStep(c: ChannelState, e: TxEvent): ChannelState {
    match e
    case FrameSent => if c.txCredits == 0 then c else c.(txCredits := c.txCredits - 1)
    case Indicated(n) => Indicate(c, n).0
  }

  function TxRun(c: ChannelState, events: seq<TxEvent>): ChannelState
    decreases |events|
  {
    if events == [] then c else TxRun(TxStep(c, events[0]), events[1..])
  }

  function FramesSent(events: seq<TxEvent>): nat {
    if events == [] then 0 else (if events[0].FrameSent? then 1 else 0) + FramesSent(events[1..])
  }

  function CreditsAccepted(c: ChannelState, events: seq<TxEvent>): nat
    decreases |events|
  {
    if events == [] then 0
    else
      (if events[0].Indicated? && !Indicate(c, events[0].credits).1.RequestDisconnect? then events[0].credits else 0)
      + CreditsAccepted(TxStep(c, events[0]), events[1..])
  }

  /** Against any peer the transmit balance is the unbounded sum: no wrap, and never more frames than credits. */
  lemma {:induction false} TransmitCreditBalance(c: ChannelState, events: seq<TxEvent>)
    requires Sendable(c, events)
    ensures TxRun(c, events).txCredits as int == c.txCredits + CreditsAccepted(c, events) - FramesSent(events)
    ensures FramesSent(events) <= c.txCredits + CreditsAccepted(c, events)
    ensures TxRun(c, events) == c.(txCredits := TxRun(c, events).txCredits)
    decreases |events|
  {
    if events != [] {
      TransmitCreditBalance(TxStep(c, events[0]), events[1..]);
    }
  }
}
