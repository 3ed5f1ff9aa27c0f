/** What `Write` cuts and `receive` puts back together, and exactly when the two agree. */
module Segmentation {
  import opened Bytes
  import opened ChannelStates

  function Min(a: int, b: int): int {
    if a < b then a else b
  }

  /** The payloads `Write` sends for one SDU when TxMPS is positive. */
  function Segments(sdu: seq<Byte>, mps: nat): seq<seq<Byte>>
    requires mps > 0
  {
    Chunks(Framed(sdu), mps)
  }

  /** The payloads of successive writes. */
  function AllSegments(sdus: seq<seq<Byte>>, mps: nat): seq<seq<Byte>>
    requires mps > 0
  {
    if sdus == [] then [] else Segments(sdus[0], mps) + AllSegments(sdus[1..], mps)
  }

  /** Whether an SDU of n bytes, cut at mps, gets through a receiver with these limits: the length must not be split,
      the SDU must fit the MTU, and neither the first frame's body nor the largest later frame may pass the receiver's
      MPS. */
  predicate Deliverable(n: nat, mps: nat, rxMPS: nat, rxMTU: nat) {
    && mps >= 2
    && n <= rxMTU
    && Min(mps, n + 2) - 2 <= rxMPS
    && (n + 2 > mps ==> Min(mps, n + 2 - mps) <= rxMPS)
  }

  predicate AllDeliverable(sdus: seq<seq<Byte>>, mps: nat, rxMPS: nat, rxMTU: nat) {
    forall i :: 0 <= i < |sdus| ==> Deliverable(|sdus[i]|, mps, rxMPS, rxMTU)
  }

  /** Two ends that respect each other's limits can send every SDU up to the MTU, the empty one included, and the
      smallest TxMPS, which puts the length alone in the first frame, is no exception. */
  lemma NegotiatedLimitsSuffice(n: nat, mps: nat, rxMPS: nat, rxMTU: nat)
    requires 2 <= mps <= rxMPS && n <= rxMTU
    ensures Deliverable(n, mps, rxMPS, rxMTU)
  {
  }

  /** The cost of a write: ceil((len+2)/TxMPS) frames, hence that many credits; all but the last are full, none is
      empty, and together they are the length and the SDU. */
  lemma WriteCost(sdu: seq<Byte>, mps: nat)
    requires mps > 0
    ensures var fs := Segments(sdu, mps);
            && |fs| == CeilDiv(|sdu| + 2, mps) > 0
            && Concat(fs) == LE16(Wrap16(|sdu|)) + sdu
            && (forall i :: 0 <= i < |fs| ==> 0 < |fs[i]| <= mps)
            && (forall i :: 0 <= i < |fs| - 1 ==> |fs[i]| == mps)
  {
    ChunkShape(Framed(sdu), mps);
    ConcatChunks(Framed(sdu), mps);
  }

  /** The tail of an SDU, frame by frame. */
  lemma {:induction false} ContinuationDelivered(c: ChannelState, rest: seq<Byte>, mps: nat)
    requires mps > 0 && 0 < |rest| <= c.rxMTU && c.rxLeft as int == |rest| && c.rxCredits > 0
    requires Min(mps, |rest|) <= c.rxMPS
    ensures var d := ReceiveAll(c, Chunks(rest, mps));
            && Accepts(c, Chunks(rest, mps))
            && d == c.(rxCredits := d.rxCredits, rxBuf := [], rxLeft := 0, delivered := c.delivered + [c.rxBuf + rest])
            && d.rxCredits > CREDIT_LOW_WATER
    decreases |rest|
  {
    var fs := Chunks(rest, mps);
    var m := Receive(c, fs[0]).0;
    if |rest| <= mps {
      assert fs[1..] == [];
      assert ReceiveAll(m, fs[1..]) == m;
    } else {
      assert fs[1..] == Chunks(rest[mps..], mps);
      ContinuationDelivered(m, rest[mps..], mps);
      assert m.rxBuf + rest[mps..] == c.rxBuf + rest;
    }
  }

  /** The first frame of a write, and what follows it. */
  lemma Opening(sdu: seq<Byte>, mps: nat)
    requires mps >= 2
    ensures var fs := Segments(sdu, mps); var k := Min(mps, |sdu| + 2);
            && fs != []
            && fs[0] == LE16(Wrap16(|sdu|)) + sdu[..k - 2]
            && (|sdu| < 0x1_0000 ==> fs[0] == LE16(|sdu|) + sdu[..k - 2])
            && fs[1..] == Chunks(sdu[k - 2..], mps)
  {
    var k := Min(mps, |sdu| + 2);
    assert Framed(sdu)[..k] == LE16(Wrap16(|sdu|)) + sdu[..k - 2];
    assert Framed(sdu)[k..] == sdu[k - 2..];
  }

  /** Receiving a frame that opens an SDU of n bytes on an idle channel. */
  lemma ReceiveOpening(c: ChannelState, n: Uint16, body: seq<Byte>)
    requires Idle(c) && c.rxCredits > 0
    ensures var buf := LE16(n) + body;
            && !Unreadable(c, buf)
            && (Oversized(c, buf) <==> |body| > n || |body| > c.rxMPS || n > c.rxMTU)
  {
    assert (LE16(n) + body)[2..] == body;
  }

  lemma ReceiveOpened(c: ChannelState, n: Uint16, body: seq<Byte>)
    requires Idle(c) && c.rxCredits > 0
    requires |body| <= n <= c.rxMTU && |body| <= c.rxMPS
    ensures var (d, reply) := Receive(c, LE16(n) + body);
            && !reply.RequestDisconnect?
            && d.rxCredits > CREDIT_LOW_WATER
            && d == c.(rxCredits := d.rxCredits, rxLeft := n - |body|, rxBuf := if |body| == n then [] else body,
                       delivered := if |body| == n then c.delivered + [body] else c.delivered)
  {
    assert (LE16(n) + body)[2..] == body;
    assert c.rxBuf + body == body;
  }

  lemma RunOf(c: ChannelState, frames: seq<seq<Byte>>, d: ChannelState)
    requires frames != [] && d == Receive(c, frames[0]).0 && !Receive(c, frames[0]).1.RequestDisconnect?
    ensures ReceiveAll(c, frames) == ReceiveAll(d, frames[1..])
    ensures Accepts(c, frames) <==> Accepts(d, frames[1..])
  {
  }

  lemma {:induction false} SduDelivered(c: ChannelState, sdu: seq<Byte>, mps: nat)
    requires Idle(c) && c.rxCredits > 0 && Deliverable(|sdu|, mps, c.rxMPS, c.rxMTU)
    ensures var d := ReceiveAll(c, Segments(sdu, mps));
            && Accepts(c, Segments(sdu, mps))
            && d == c.(rxCredits := d.rxCredits, delivered := c.delivered + [sdu])
            && d.rxCredits > CREDIT_LOW_WATER
  {
    var fs := Segments(sdu, mps);
    var k := Min(mps, |sdu| + 2) - 2;
    var body, rest := sdu[..k], sdu[k..];
    assert body + rest == sdu;
    Opening(sdu, mps);
    ReceiveOpened(c, |sdu|, body);
    var m := Receive(c, LE16(|sdu|) + body).0;
    RunOf(c, fs, m);
    if rest == [] {
      assert body == sdu;
    } else {
      ContinuationDelivered(m, rest, mps);
    }
  }

  lemma {:induction false} ConsumedAtMost(c: ChannelState, frames: seq<seq<Byte>>)
    ensures |ConsumedAll(c, frames)| <= |Concat(frames)|
    decreases |frames|
  {
    if frames != [] {
      ConsumedAtMost(Receive(c, frames[0]).0, frames[1..]);
    }
  }

  /** If a write within the MTU left no byte behind, the receiver had credit and the limits were respected. */
  lemma WhollyConsumedFits(c: ChannelState, sdu: seq<Byte>, mps: nat)
    requires mps > 0 && Idle(c) && |sdu| <= c.rxMTU
    requires |ConsumedAll(c, Segments(sdu, mps))| == |sdu| + 2
    ensures c.rxCredits > 0 && Deliverable(|sdu|, mps, c.rxMPS, c.rxMTU)
  {
    var fs := Segments(sdu, mps);
    WriteCost(sdu, mps);
    var m := Receive(c, fs[0]).0;
    FirstWhollyConsumed(c, fs);
    assert |fs[0]| >= 2;
    Opening(sdu, mps);
    var k := Min(mps, |sdu| + 2);
    ReceiveOpening(c, |sdu|, sdu[..k - 2]);
    assert k - 2 <= c.rxMPS;
    if |sdu| + 2 > mps {
      ReceiveOpened(c, |sdu|, sdu[..k - 2]);
      FirstWhollyConsumed(m, fs[1..]);
      assert m.rxLeft > 0 && m.rxMPS == c.rxMPS;
      assert |fs[1]| == Min(mps, |sdu| + 2 - mps);
      assert !Oversized(m, fs[1]);
    }
  }

  lemma FirstWhollyConsumed(c: ChannelState, frames: seq<seq<Byte>>)
    requires frames != [] && |ConsumedAll(c, frames)| == |Concat(frames)|
    ensures |Consumed(c, frames[0])| == |frames[0]|
    ensures |ConsumedAll(Receive(c, frames[0]).0, frames[1..])| == |Concat(frames[1..])|
  {
    ConsumedAtMost(Receive(c, frames[0]).0, frames[1..]);
  }

  lemma {:induction false} ConsumedAppend(c: ChannelState, a: seq<seq<Byte>>, b: seq<seq<Byte>>)
    ensures ConsumedAll(c, a + b) == ConsumedAll(c, a) + ConsumedAll(ReceiveAll(c, a), b)
    decreases |a|
  {
    if a == [] {
      assert a + b == b;
    } else {
      var d := Receive(c, a[0]).0;
      ConsumedAppend(d, a[1..], b);
      assert (a + b)[0] == a[0] && (a + b)[1..] == a[1..] + b;
      Associate(Consumed(c, a[0]), ConsumedAll(d, a[1..]), ConsumedAll(ReceiveAll(d, a[1..]), b));
      assert ConsumedAll(c, a + b) == Consumed(c, a[0]) + ConsumedAll(d, a[1..] + b);
    }
  }

  lemma {:induction false} ConcatAllSegments(sdus: seq<seq<Byte>>, mps: nat)
    requires mps > 0
    ensures Concat(AllSegments(sdus, mps)) == FramedAll(sdus)
  {
    if sdus != [] {
      ConcatAllSegments(sdus[1..], mps);
      ConcatAppend(Segments(sdus[0], mps), AllSegments(sdus[1..], mps));
      ConcatChunks(Framed(sdus[0]), mps);
    }
  }

  lemma AllDeliverableTail(sdus: seq<seq<Byte>>, mps: nat, rxMPS: nat, rxMTU: nat)
    requires sdus != [] && AllDeliverable(sdus, mps, rxMPS, rxMTU)
    ensures Deliverable(|sdus[0]|, mps, rxMPS, rxMTU) && AllDeliverable(sdus[1..], mps, rxMPS, rxMTU)
  {
    forall i | 0 <= i < |sdus[1..]| ensures Deliverable(|sdus[1..][i]|, mps, rxMPS, rxMTU) {
      assert sdus[1..][i] == sdus[i + 1];
    }
  }

  lemma DeliveredInTurn(before: seq<seq<Byte>>, sdus: seq<seq<Byte>>)
    requires sdus != []
    ensures (before + [sdus[0]]) + sdus[1..] == before + sdus
  {
  }

  /** Successive writes within the limits arrive as exactly the SDUs written, in order, with nothing left over. */
  lemma {:induction false} WritesDelivered(c: ChannelState, sdus: seq<seq<Byte>>, mps: nat)
    requires mps > 0 && Idle(c) && c.rxCredits > 0 && AllDeliverable(sdus, mps, c.rxMPS, c.rxMTU)
    ensures var d := ReceiveAll(c, AllSegments(sdus, mps));
            && Accepts(c, AllSegments(sdus, mps))
            && d == c.(rxCredits := d.rxCredits, delivered := c.delivered + sdus)
            && d.rxCredits > 0
    decreases |sdus|
  {
    if sdus == [] {
      assert c.delivered + sdus == c.delivered;
    } else {
      var first, rest := Segments(sdus[0], mps), AllSegments(sdus[1..], mps);
      var m := ReceiveAll(c, first);
      AllDeliverableTail(sdus, mps, c.rxMPS, c.rxMTU);
      SduDelivered(c, sdus[0], mps);
      WritesDelivered(m, sdus[1..], mps);
      ReceiveAllAppend(c, first, rest);
      DeliveredInTurn(c.delivered, sdus);
    }
  }

  lemma {:induction false} WhollyConsumedAllFit(c: ChannelState, sdus: seq<seq<Byte>>, mps: nat)
    requires mps > 0 && Idle(c)
    requires forall i :: 0 <= i < |sdus| ==> |sdus[i]| <= c.rxMTU
    requires |ConsumedAll(c, AllSegments(sdus, mps))| == |FramedAll(sdus)|
    ensures sdus == [] || (c.rxCredits > 0 && AllDeliverable(sdus, mps, c.rxMPS, c.rxMTU))
    decreases |sdus|
  {
    if sdus != [] {
      var first, rest := Segments(sdus[0], mps), AllSegments(sdus[1..], mps);
      var m := ReceiveAll(c, first);
      ConsumedAppend(c, first, rest);
      ConsumedAtMost(c, first);
      ConsumedAtMost(m, rest);
      ConcatChunks(Framed(sdus[0]), mps);
      ConcatAllSegments(sdus[1..], mps);
      assert |FramedAll(sdus)| == |Framed(sdus[0])| + |FramedAll(sdus[1..])|;
      WhollyConsumedFits(c, sdus[0], mps);
      SduDelivered(c, sdus[0], mps);
      assert forall i :: 0 <= i < |sdus[1..]| ==> sdus[1..][i] == sdus[i + 1];
      WhollyConsumedAllFit(m, sdus[1..], mps);
      forall i | 0 <= i < |sdus| ensures Deliverable(|sdus[i]|, mps, c.rxMPS, c.rxMTU) {
        if i > 0 {
          assert sdus[i] == sdus[1..][i - 1];
          assert Deliverable(|sdus[1..][i - 1]|, mps, m.rxMPS, m.rxMTU);
        }
      }
    }
  }

  /** The segmentation round trip, exactly: from an idle channel the frames of successive writes deliver precisely the
      SDUs written if and only if the channel has credit and every SDU fits the limits. */
  lemma SegmentationRoundTrip(c: ChannelState, sdus: seq<seq<Byte>>, mps: nat)
    requires mps > 0 && Idle(c)
    ensures ReceiveAll(c, AllSegments(sdus, mps)).delivered == c.delivered + sdus
            <==> sdus == [] || (c.rxCredits > 0 && AllDeliverable(sdus, mps, c.rxMPS, c.rxMTU))
  {
    var fs := AllSegments(sdus, mps);
    var d := ReceiveAll(c, fs);
    if sdus == [] {
    } else if c.rxCredits > 0 && AllDeliverable(sdus, mps, c.rxMPS, c.rxMTU) {
      WritesDelivered(c, sdus, mps);
    } else if d.delivered == c.delivered + sdus {
      ReassemblyConservation(c, fs);
      assert d.delivered[|c.delivered|..] == sdus;
      forall i | 0 <= i < |sdus| ensures |sdus[i]| <= c.rxMTU {
        assert d.delivered[|c.delivered| + i] == sdus[i];
      }
      ConsumedAtMost(c, fs);
      ConcatAllSegments(sdus, mps);
      WhollyConsumedAllFit(c, sdus, mps);
    }
  }

  lemma {:induction false} TooShortToOpen(c: ChannelState, frames: seq<seq<Byte>>)
    requires c.rxLeft == 0 && forall f :: f in frames ==> |f| < 2
    ensures ReceiveAll(c, frames) == c && (Accepts(c, frames) <==> frames == [])
    decreases |frames|
  {
    if frames != [] {
      assert frames[0] in frames;
      TooShortToOpen(c, frames[1..]);
    }
  }

  lemma {:induction false} OneByteSegments(sdus: seq<seq<Byte>>)
    ensures forall f :: f in AllSegments(sdus, 1) ==> |f| < 2
    ensures AllSegments(sdus, 1) == [] <==> sdus == []
  {
    if sdus != [] {
      WriteCost(sdus[0], 1);
      OneByteSegments(sdus[1..]);
    }
  }

  /** With a TxMPS of 1 no frame can hold the length, and whatever is written the receiver refuses every frame and stays
      as it was. */
  lemma SplitLengthDeliversNothing(c: ChannelState, sdus: seq<seq<Byte>>)
    requires Idle(c)
    ensures ReceiveAll(c, AllSegments(sdus, 1)) == c
    ensures Accepts(c, AllSegments(sdus, 1)) <==> sdus == []
  {
    OneByteSegments(sdus);
    TooShortToOpen(c, AllSegments(sdus, 1));
  }

  lemma FirstAccepted(c: ChannelState, frames: seq<seq<Byte>>)
    requires frames != [] && Accepts(c, frames)
    ensures !Unreadable(c, frames[0]) && !Oversized(c, frames[0])
    ensures Accepts(Receive(c, frames[0]).0, frames[1..])
  {
  }

  /** What is accepted respects the limits, if its length was not truncated. */
  lemma SduAcceptedFits(c: ChannelState, sdu: seq<Byte>, mps: nat)
    requires mps > 0 && Idle(c) && |sdu| <= 0xFFFF && Accepts(c, Segments(sdu, mps))
    ensures Deliverable(|sdu|, mps, c.rxMPS, c.rxMTU)
  {
    var fs := Segments(sdu, mps);
    WriteCost(sdu, mps);
    FirstAccepted(c, fs);
    assert |fs[0]| >= 2;
    Opening(sdu, mps);
    var k := Min(mps, |sdu| + 2);
    ReceiveOpening(c, |sdu|, sdu[..k - 2]);
    if |sdu| + 2 > mps {
      ReceiveOpened(c, |sdu|, sdu[..k - 2]);
      FirstAccepted(Receive(c, fs[0]).0, fs[1..]);
      assert |fs[1]| == Min(mps, |sdu| + 2 - mps);
    }
  }

  /** Nothing of a list of writes is refused if and only if every SDU fits the limits. */
  lemma {:induction false} WritesAcceptedExactly(c: ChannelState, sdus: seq<seq<Byte>>, mps: nat)
    requires mps > 0 && Idle(c) && c.rxCredits > 0
    requires forall i :: 0 <= i < |sdus| ==> |sdus[i]| <= 0xFFFF
    ensures Accepts(c, AllSegments(sdus, mps)) <==> AllDeliverable(sdus, mps, c.rxMPS, c.rxMTU)
    decreases |sdus|
  {
    if AllDeliverable(sdus, mps, c.rxMPS, c.rxMTU) {
      WritesDelivered(c, sdus, mps);
    } else if Accepts(c, AllSegments(sdus, mps)) {
      ReceiveAllAppend(c, Segments(sdus[0], mps), AllSegments(sdus[1..], mps));
      SduAcceptedFits(c, sdus[0], mps);
      SduDelivered(c, sdus[0], mps);
      WritesAcceptedExactly(ReceiveAll(c, Segments(sdus[0], mps)), sdus[1..], mps);
      assert AllDeliverable(sdus[1..], mps, c.rxMPS, c.rxMTU);
      AllDeliverableCons(sdus, mps, c.rxMPS, c.rxMTU);
    }
  }

  lemma AllDeliverableCons(sdus: seq<seq<Byte>>, mps: nat, rxMPS: nat, rxMTU: nat)
    requires sdus != [] && Deliverable(|sdus[0]|, mps, rxMPS, rxMTU) && AllDeliverable(sdus[1..], mps, rxMPS, rxMTU)
    ensures AllDeliverable(sdus, mps, rxMPS, rxMTU)
  {
    forall i | 0 <= i < |sdus| ensures Deliverable(|sdus[i]|, mps, rxMPS, rxMTU) {
      assert i > 0 ==> sdus[i] == sdus[1..][i - 1];
    }
  }

  lemma {:induction false} EmptySdus(c: ChannelState, s: seq<Byte>)
    requires Idle(c) && c.rxCredits > 0 && |s| % 2 == 0 && forall b :: b in s ==> b == 0
    ensures Accepts(c, Chunks(s, 2))
    decreases |s|
  {
    if |s| > 0 {
      assert s[0] in s && s[1] in s;
      assert s[..2] == [0, 0];
      EmptySduTaken(c);
      assert forall b :: b in s[2..] ==> b in s;
      EmptySdus(Receive(c, [0, 0]).0, s[2..]);
      FirstOfChunks(s, 2);
      RunOf(c, Chunks(s, 2), Receive(c, [0, 0]).0);
    }
  }

  lemma EmptySduTaken(c: ChannelState)
    requires Idle(c) && c.rxCredits > 0
    ensures var (d, reply) := Receive(c, [0, 0]);
            Idle(d) && d.rxCredits > 0 && d.rxMPS == c.rxMPS && d.rxMTU == c.rxMTU && !reply.RequestDisconnect?
  {
    assert LE16(0) + [] == [0, 0];
    ReceiveOpened(c, 0, []);
  }

  lemma FirstOfChunks<T>(s: seq<T>, n: nat)
    requires 0 < n <= |s|
    ensures Chunks(s, n) != [] && Chunks(s, n)[0] == s[..n] && Chunks(s, n)[1..] == Chunks(s[n..], n)
  {
  }

  /** Past 65535 bytes, where the length is truncated, a write can be wrong without being refused: 65536 zero bytes cut
      at 2 are taken for so many empty SDUs. */
  lemma TruncatedLengthCanPass(c: ChannelState)
    requires Idle(c) && c.rxCredits > 0
    ensures var sdu := seq(0x1_0000, i => 0);
            Accepts(c, Segments(sdu, 2)) && !Deliverable(|sdu|, 2, c.rxMPS, c.rxMTU)
  {
    EmptySdus(c, Framed(seq(0x1_0000, i => 0)));
  }
}
