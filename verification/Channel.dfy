/** The connection-oriented channel as the object it is: `receive` and the writer update its fields in place. */
module Channels {
  import opened Bytes
  import opened ChannelStates
  import opened Segmentation
  import F = Frames

  function Credited(indications: seq<Uint16>): nat {
    if indications == [] then 0 else indications[0] + Credited(indications[1..])
  }

  /** The frames for a list of payloads, as Write hands them down. */
  function Framing(cid: Uint16, payloads: seq<seq<Byte>>): (r: seq<F.Frame>)
    ensures |r| == |payloads|
  {
    if payloads == [] then [] else [F.BFrame(cid, payloads[0])] + Framing(cid, payloads[1..])
  }

  /** What the loop of Write has sent when it stands at i: all but the frames of what is still to be cut, or with a
      TxMPS of zero nothing but empty frames. */
  predicate Sending(cid: Uint16, sdu: seq<Byte>, mps: nat, i: nat, frames: seq<F.Frame>) {
    if mps > 0
    then frames + Framing(cid, Chunks(Rest(sdu, i), mps)) == Framing(cid, Chunks(sdu, mps))
    else i == 0 && forall f :: f in frames ==> f == F.BFrame(cid, [])
  }

  lemma NextFrame(cid: Uint16, sdu: seq<Byte>, mps: nat, i: nat)
    requires mps > 0 && i < |sdu|
    ensures Framing(cid, Chunks(Rest(sdu, i), mps))
         == [F.BFrame(cid, Piece(sdu, mps, i))] + Framing(cid, Chunks(Rest(sdu, i + mps), mps))
  {
    NextPiece(sdu, mps, i);
  }

  lemma SendingGoesOn(cid: Uint16, sdu: seq<Byte>, mps: nat, i: nat, frames: seq<F.Frame>)
    requires Sending(cid, sdu, mps, i, frames) && i < |sdu|
    ensures Sending(cid, sdu, mps, i + mps, frames + [F.BFrame(cid, Piece(sdu, mps, i))])
  {
    if mps > 0 {
      NextFrame(cid, sdu, mps, i);
      AppendOne(frames, F.BFrame(cid, Piece(sdu, mps, i)), Framing(cid, Chunks(Rest(sdu, i + mps), mps)));
    }
  }

  lemma SendingStops(cid: Uint16, sdu: seq<Byte>, mps: nat, i: nat, frames: seq<F.Frame>)
    requires mps > 0 && Sending(cid, sdu, mps, i, frames) && i < |sdu|
    ensures frames < Framing(cid, Chunks(sdu, mps))
  {
    NextFrame(cid, sdu, mps, i);
  }

  lemma SendingEnds(cid: Uint16, sdu: seq<Byte>, mps: nat, i: nat, frames: seq<F.Frame>)
    requires Sending(cid, sdu, mps, i, frames) && i >= |sdu| > 0
    ensures mps > 0 && frames == Framing(cid, Chunks(sdu, mps))
  {
    assert frames + [] == frames;
  }

  class Channel {
    /** The identifier of the request, repeated in the response. */
    const identifier: Byte
    const rxCID: Uint16
    const txCID: Uint16
    const txMPS: Uint16
    var rxMPS: Uint16
    var rxMTU: Uint16
    var txCredits: Uint16
    var rxCredits: Uint16
    var rxBuf: seq<Byte>
    var rxSDUBytesLeft: Uint16
    var rxCh: seq<seq<Byte>>
    /** The SDUs the application has already taken from rxCh. */
    ghost var taken: seq<seq<Byte>>

    ghost function View(): ChannelState
      reads this
    {
      ChannelState(rxCID, txCID, txMPS, rxMPS, rxMTU, txCredits, rxCredits, rxBuf, rxSDUBytesLeft, taken + rxCh)
    }

    /** The channel Accept makes for a connection request. */
    constructor (identifier: Byte, rxCID: Uint16, txCID: Uint16, txMPS: Uint16, txCredits: Uint16)
      ensures View() == ChannelState(rxCID, txCID, txMPS, 0, 0, txCredits, 0, [], 0, [])
      ensures this.identifier == identifier && this.rxCID == rxCID && this.txCID == txCID && this.txMPS == txMPS
    {
      this.identifier := identifier;
      this.rxCID, this.txCID, this.txMPS, this.txCredits := rxCID, txCID, txMPS, txCredits;
      rxMPS, rxMTU, rxCredits, rxBuf, rxSDUBytesLeft, rxCh := 0, 0, 0, [], 0, [];
      taken := [];
    }

    method Approve(rxMTU: Uint16)
      modifies this
      ensures View() == Approved(old(View()), rxMTU)
      ensures this.rxMTU == rxMTU && rxMPS == (if rxMTU > 1004 then 1004 else rxMTU) && rxCredits == 500
    {
      this.rxMTU := rxMTU;
      rxMPS := rxMTU;
      if rxMPS > 1004 {
        rxMPS := 1004;
      }
      rxCredits := 500;
    }

    method OnFrame(payload: seq<Byte>) returns (reply: Reply)
      modifies this
      ensures (View(), reply) == Receive(old(View()), payload)
      ensures reply == GrantCredits(500) <==> reply != RequestDisconnect && old(rxCredits) <= 71
      ensures reply != RequestDisconnect ==>
                rxCredits as int == old(rxCredits) - 1 + (if old(rxCredits) <= 71 then 500 else 0)
    {
      var buf := payload;
      if rxCredits == 0 || (rxSDUBytesLeft == 0 && |buf| < 2) {
        return RequestDisconnect;
      }
      rxCredits := rxCredits - 1;
      if rxSDUBytesLeft == 0 {
        rxSDUBytesLeft := Get16(buf, 0);
        buf := buf[2..];
      }
      if |buf| > rxSDUBytesLeft || |buf| > rxMPS || rxSDUBytesLeft > rxMTU {
        return RequestDisconnect;
      }
      rxBuf := rxBuf + buf;
      rxSDUBytesLeft := rxSDUBytesLeft - |buf|;
      if rxSDUBytesLeft == 0 {
        assert taken + (rxCh + [rxBuf]) == (taken + rxCh) + [rxBuf];
        rxCh := rxCh + [rxBuf];
        rxBuf := [];
      }
      reply := Quiet;
      if rxCredits <= 70 {
        rxCredits := rxCredits + 500;
        reply := GrantCredits(500);
      }
    }

    method OnCredits(credits: Uint16) returns (reply: Reply)
      modifies this
      ensures (View(), reply) == Indicate(old(View()), credits)
    {
      reply := Quiet;
      if credits != 0 {
        if txCredits + credits > 0xFFFF {
          reply := RequestDisconnect;
        } else {
          txCredits := txCredits + credits;
        }
      }
    }

    /** Read, once an SDU is there. One that does not fit the caller's buffer is lost. */
    method Read(buf: array<Byte>) returns (r: Result<nat>)
      requires rxCh != []
      modifies this, buf
      ensures View() == old(View()) && rxCh == old(rxCh)[1..] && taken == old(taken) + [old(rxCh)[0]]
      ensures r == if buf.Length < |old(rxCh)[0]| then Err(ShortBuffer) else Ok(|old(rxCh)[0]|)
      ensures buf[..] == if r.Ok? then old(rxCh)[0] + old(buf[..])[|old(rxCh)[0]|..] else old(buf[..])
    {
      var b := rxCh[0];
      assert (taken + [b]) + rxCh[1..] == taken + rxCh;
      rxCh := rxCh[1..];
      taken := taken + [b];
      if buf.Length < |b| {
        return Err(ShortBuffer);
      }
      CopyAt(buf, 0, b);
      r := Ok(|b|);
    }

    /** The wait in the loop of Write, woken by each credit indication; it is still waiting when they run out. */
    method AwaitCredit(indications: seq<Uint16>) returns (unused: seq<Uint16>)
      modifies this
      ensures View() == old(View()).(txCredits := txCredits)
      ensures Paid(old(txCredits), indications, unused, txCredits, 0)
      ensures txCredits == 0 ==> unused == []
    {
      unused := indications;
      while txCredits == 0 && unused != []
        invariant View() == old(View()).(txCredits := txCredits)
        invariant Paid(old(txCredits), indications, unused, txCredits, 0)
        decreases |unused|
      {
        PaidWaits(old(txCredits), indications, unused, 0);
        var _ := OnCredits(unused[0]);
        unused := unused[1..];
      }
    }

    /** One turn of that loop, once a credit is there. */
    method TakeFrame(sdu: seq<Byte>, i: nat) returns (f: F.Frame)
      requires txCredits > 0 && i < |sdu|
      modifies this
      ensures View() == old(View()).(txCredits := old(txCredits) - 1) && txCredits == old(txCredits) - 1
      ensures f == F.BFrame(txCID, Piece(sdu, txMPS, i))
    {
      txCredits := txCredits - 1;
      var j := i + txMPS;
      if j > |sdu| {
        j := |sdu|;
      }
      f := F.BFrame(txCID, sdu[i..j]);
    }

    /** Write. `indications` are the credit indications that wake it while it waits for a credit; it takes one only
        when its frames so far have used up every credit, and is still waiting when they run out. With a TxMPS of zero
        it sends empty frames for ever. */
    method Write(buf: seq<Byte>, indications: seq<Uint16>)
      returns (frames: seq<F.Frame>, unused: seq<Uint16>, finished: bool)
      modifies this
      ensures View() == old(View()).(txCredits := txCredits)
      ensures Spent(old(txCredits), indications, txCredits, |frames|, unused)
      ensures Frugal(old(txCredits), indications, unused, if finished then |frames| - 1 else |frames|)
      ensures txMPS > 0 ==> frames <= Framing(txCID, Segments(buf, txMPS))
      ensures txMPS > 0 ==> (finished <==> frames == Framing(txCID, Segments(buf, txMPS)))
      ensures txMPS == 0 ==> !finished && forall f :: f in frames ==> f == F.BFrame(txCID, [])
      ensures !finished ==> txCredits == 0 && unused == []
    {
      var sdu := LE16(Wrap16(|buf|)) + buf;
      frames, unused, finished := [], indications, false;
      var i: nat := 0;
      while i < |sdu|
        invariant View() == old(View()).(txCredits := txCredits) && !finished
        invariant Paid(old(txCredits), indications, unused, txCredits, |frames|)
        invariant i >= |sdu| ==> Frugal(old(txCredits), indications, unused, |frames| - 1)
        invariant Sending(txCID, sdu, txMPS, i, frames)
        decreases txCredits + Credited(unused)
      {
        ghost var held, left := txCredits, unused;
        unused := AwaitCredit(unused);
        PaidOn(old(txCredits), indications, left, held, |frames|, unused, txCredits);
        if txCredits == 0 {
          if txMPS > 0 {
            SendingStops(txCID, sdu, txMPS, i, frames);
          }
          return;
        }
        PaidSends(old(txCredits), indications, unused, txCredits, |frames|);
        SendingGoesOn(txCID, sdu, txMPS, i, frames);
        var f := TakeFrame(sdu, i);
        frames := frames + [f];
        i := i + txMPS;
      }
      finished := true;
      SendingEnds(txCID, sdu, txMPS, i, frames);
    }
  }

  /** Every frame cost one credit; the indications not yet used are the last ones. */
  predicate Spent(start: Uint16, indications: seq<Uint16>, credits: Uint16, frames: nat, unused: seq<Uint16>) {
    && credits + frames + Credited(unused) == start + Credited(indications)
    && |unused| <= |indications| && unused == indications[|indications| - |unused|..]
  }

  /** If any indication was used, then without the last one used there were credits for at most `frames` frames. */
  predicate Frugal(start: Uint16, indications: seq<Uint16>, unused: seq<Uint16>, frames: int) {
    |unused| < |indications| ==> start + Credited(indications[..|indications| - |unused| - 1]) <= frames
  }

  lemma {:induction false} CreditedSplit(indications: seq<Uint16>, k: nat)
    requires k <= |indications|
    ensures Credited(indications) == Credited(indications[..k]) + Credited(indications[k..])
  {
    if k > 0 {
      CreditedSplit(indications[1..], k - 1);
      assert indications[..k][1..] == indications[1..][..k - 1];
      assert indications[k..] == indications[1..][k - 1..];
    } else {
      assert indications[0..] == indications;
    }
  }

  /** The account of the loop after so many frames. */
  predicate Paid(start: Uint16, indications: seq<Uint16>, unused: seq<Uint16>, credits: Uint16, frames: nat) {
    Spent(start, indications, credits, frames, unused) && Frugal(start, indications, unused, frames)
  }

  lemma PaidSends(start: Uint16, indications: seq<Uint16>, unused: seq<Uint16>, credits: Uint16, frames: nat)
    requires Paid(start, indications, unused, credits, frames) && credits > 0
    ensures Paid(start, indications, unused, credits - 1, frames + 1)
  {
  }

  lemma PaidWaits(start: Uint16, indications: seq<Uint16>, unused: seq<Uint16>, frames: nat)
    requires Paid(start, indications, unused, 0, frames) && unused != []
    ensures Paid(start, indications, unused[1..], unused[0], frames)
  {
    CreditedSplit(indications, |indications| - |unused|);
  }

  /** A wait in the course of the loop. */
  lemma PaidOn(start: Uint16, indications: seq<Uint16>, left: seq<Uint16>, held: Uint16, frames: nat,
               unused: seq<Uint16>, credits: Uint16)
    requires Paid(start, indications, left, held, frames) && Paid(held, left, unused, credits, 0)
    ensures Paid(start, indications, unused, credits, frames)
  {
    var before := |indications| - |left|;
    CreditedSplit(indications, before);
    if |unused| < |left| {
      var upTo := indications[..|indications| - |unused| - 1];
      CreditedSplit(upTo, before);
      assert upTo[..before] == indications[..before];
      assert upTo[before..] == left[..|left| - |unused| - 1];
    } else {
      assert unused == left;
    }
  }
}
