/** The L2CAP connection as an object: a map of channel objects, and the loop of Accept that reads it. */
module Conns {
  import opened Bytes
  import opened ChannelStates
  import opened Connections
  import opened Channels
  import F = Frames
  import S = Signalling

  class Conn {
    var cocs: map<Uint16, Channel>
    var nextChannelID: Uint16

    /** Every channel is registered under its own identifier, so two entries are never the same object. */
    predicate Valid()
      reads this
    {
      forall k :: k in cocs ==> cocs[k].rxCID == k
    }

    ghost function Channels(): map<Uint16, ChannelState>
      reads this`cocs, cocs.Values
    {
      map k | k in cocs :: cocs[k].View()
    }

    ghost function View(): ConnState
      reads this, cocs.Values
    {
      ConnState(Channels(), nextChannelID)
    }

    lemma Distinct(k: Uint16)
      requires Valid() && k in cocs
      ensures forall j :: j in cocs && j != k ==> cocs[j] != cocs[k]
    {
    }

    constructor ()
      ensures Valid() && View() == NewConn()
    {
      cocs, nextChannelID := map[], 0x40;
    }

    /** Approve: the offered channel gets its limits and is registered, and the peer is told them. */
    method Approve(ch: Channel, rxMTU: Uint16) returns (response: S.SignallingPacket)
      requires Valid()
      modifies this, ch
      ensures Valid() && View() == ConnNext(old(View()), Approval(old(ch.View()), rxMTU))
      ensures cocs == old(cocs)[ch.rxCID := ch]
      ensures response == ApprovalResponse(ch.identifier, ch.View())
      ensures response == S.LEConnectionResponse(ch.identifier, ch.rxCID, rxMTU,
                                                 if rxMTU > 1004 then 1004 else rxMTU, 500, 0)
    {
      ch.Approve(rxMTU);
      response := S.LEConnectionResponse(ch.identifier, ch.rxCID, ch.rxMTU, ch.rxMPS, ch.rxCredits, 0);
      cocs := cocs[ch.rxCID := ch];
      assert View().cocs == old(View()).cocs[ch.rxCID := ch.View()];
    }

    /** Accept, over the PDUs the connection will read; it is still reading when they run out. */
    method AcceptFrom(pdus: seq<seq<Byte>>) returns (outcomes: seq<Outcome>, offered: Channel?)
      requires Valid()
      modifies this, cocs.Values
      ensures Valid() && cocs == old(cocs)
      ensures (View(), outcomes) == Accept(old(View()), pdus)
      ensures offered != null <==> outcomes != [] && outcomes[|outcomes| - 1].Requested?
      ensures offered != null ==>
                && fresh(offered) && offered.View() == outcomes[|outcomes| - 1].chan
                && offered.identifier == outcomes[|outcomes| - 1].id
    {
      outcomes, offered := [], null;
      ghost var start := View();
      var i := 0;
      assert pdus[i..] == pdus && outcomes + Accept(start, pdus).1 == Accept(start, pdus).1;
      while i < |pdus|
        invariant 0 <= i <= |pdus| && Valid() && cocs == old(cocs) && offered == null
        invariant Accept(start, pdus) == (Accept(View(), pdus[i..]).0, outcomes + Accept(View(), pdus[i..]).1)
        invariant forall j :: 0 <= j < |outcomes| ==> !Stops(outcomes[j])
      {
        assert pdus[i..][0] == pdus[i] && pdus[i..][1..] == pdus[i + 1..];
        var out;
        out, offered := OnPdu(pdus[i]);
        AppendOne(outcomes, out, Accept(View(), pdus[i + 1..]).1);
        outcomes := outcomes + [out];
        i := i + 1;
        if Stops(out) {
          return;
        }
      }
      assert outcomes + [] == outcomes;
    }

    /** One turn of Accept's loop. The refusals for a bad request are sent, and the channel is made all the same. */
    method OnPdu(pdu: seq<Byte>) returns (out: Outcome, offered: Channel?)
      requires Valid()
      modifies this, cocs.Values
      ensures Valid() && cocs == old(cocs)
      ensures (View(), out) == HandlePdu(old(View()), pdu)
      ensures out.Requested? <==> offered != null
      ensures offered != null ==> fresh(offered) && offered.View() == out.chan && offered.identifier == out.id
    {
      offered := null;
      var r := ReadFrame(pdu);
      if r.Err? {
        return Failed(r.error), null;
      }
      if r.value.GFrame? {
        return Ignored, null;
      }
      var cid, payload := r.value.channelID, r.value.payload;
      if cid == F.CID_ATTRIBUTE_PROTOCOL {
        out := if payload == [] then Failed(IndexOutOfRange) else Ignored;
      } else if cid == F.CID_SIGNALLING_LEU {
        out, offered := OnSignalling(payload);
      } else if cid in cocs {
        Distinct(cid);
        var reply := cocs[cid].OnFrame(payload);
        out := Delivered(reply);
        assert View().cocs == old(View()).cocs[cid := Receive(old(View()).cocs[cid], payload).0];
      } else {
        out := Ignored;
      }
    }

    method OnSignalling(payload: seq<Byte>) returns (out: Outcome, offered: Channel?)
      requires Valid()
      modifies this, cocs.Values
      ensures Valid() && cocs == old(cocs)
      ensures (View(), out) == HandleSignalling(old(View()), payload)
      ensures out.Requested? <==> offered != null
      ensures offered != null ==> fresh(offered) && offered.View() == out.chan && offered.identifier == out.id
    {
      offered := null;
      var r := S.Unmarshal(payload);
      if r.Err? {
        return Failed(r.error), null;
      }
      var p := r.value;
      if p.LEConnectionRequest? {
        out, offered := OnRequest(p);
      } else if p.CreditIndication? {
        var overflowed := OnCredits(p.cid, p.credits);
        out := Credited(overflowed);
      } else if p.DisconnectionRequest? || p.DisconnectionResponse? {
        out := TornDown;
      } else {
        out := Failed(UnhandledPacket);
      }
    }

    method TakeIdentifier()
      modifies this`nextChannelID
      ensures View() == old(View()).(next := Wrap16(old(View()).next as int + 1))
    {
      nextChannelID := Wrap16(nextChannelID as int + 1);
    }

    method OnRequest(p: S.SignallingPacket) returns (out: Outcome, offered: Channel)
      requires Valid() && p.LEConnectionRequest?
      modifies this`nextChannelID
      ensures Valid() && cocs == old(cocs)
      ensures View() == old(View()).(next := Wrap16(old(View()).next as int + 1))
      ensures out == Requested(p.id, Offered(old(View()), p), Refusals(old(View()), p))
      ensures fresh(offered) && offered.View() == Offered(old(View()), p) && offered.identifier == p.id
    {
      ghost var before := View();
      var refusals := FindRefusals(p);
      offered := new Channel(p.id, nextChannelID, p.scid, p.mps, p.credits);
      assert offered.View() == Offered(before, p);
      TakeIdentifier();
      var state := ChannelState(offered.rxCID, offered.txCID, offered.txMPS, 0, 0, p.credits, 0, [], 0, []);
      out := Requested(offered.identifier, state, refusals);
    }

    /** The four checks on a request; the last looks through every registered channel. */
    method FindRefusals(p: S.SignallingPacket) returns (refusals: seq<S.SignallingPacket>)
      requires Valid() && p.LEConnectionRequest?
      ensures refusals == Refusals(View(), p)
    {
      assert View().cocs.Keys == cocs.Keys;
      assert |View().cocs| == |View().cocs.Keys| && |cocs| == |cocs.Keys|;
      var bad := if p.mtu < 23 || p.mps < 23 || p.mps > 65533 then [Refusal(p.id, REFUSED_PARAMETERS)] else [];
      var full := if |cocs| == 0xFFC0 then [Refusal(p.id, REFUSED_NO_RESOURCES)] else [];
      var fixed := if p.scid <= 0x003F then [Refusal(p.id, REFUSED_INVALID_SOURCE_CID)] else [];
      var duplicates := RefuseDuplicates(p.id, p.scid);
      refusals := bad + full + fixed + duplicates;
    }

    /** The loop over the registered channels that already send to the requested identifier. */
    method RefuseDuplicates(id: Byte, scid: Uint16) returns (refusals: seq<S.SignallingPacket>)
      requires Valid()
      ensures refusals == Repeat(Refusal(id, REFUSED_CID_ALLOCATED), |WithTxCID(View(), scid)|)
    {
      refusals := [];
      var todo := cocs.Keys;
      ghost var found: set<Uint16> := {};
      while todo != {}
        invariant todo <= cocs.Keys
        invariant forall k :: k in found <==> k in cocs && k !in todo && cocs[k].txCID == scid
        invariant refusals == Repeat(Refusal(id, REFUSED_CID_ALLOCATED), |found|)
        decreases |todo|
      {
        var k :| k in todo;
        todo := todo - {k};
        if cocs[k].txCID == scid {
          refusals := refusals + [Refusal(id, REFUSED_CID_ALLOCATED)];
          found := found + {k};
        }
      }
      assert found == WithTxCID(View(), scid);
    }

    method CreditOne(k: Uint16, credits: Uint16) returns (reply: Reply)
      requires Valid() && k in cocs
      modifies cocs[k]
      ensures View() == old(View()).(cocs := old(View()).cocs[k := Indicate(old(View()).cocs[k], credits).0])
      ensures reply == Indicate(old(View()).cocs[k], credits).1
    {
      Distinct(k);
      reply := cocs[k].OnCredits(credits);
      assert View().cocs == old(View()).cocs[k := Indicate(old(View()).cocs[k], credits).0];
    }

    /** Credits go to every channel that sends to the identifier; a channel that would overflow asks to disconnect. */
    method OnCredits(cid: Uint16, credits: Uint16) returns (overflowed: set<Uint16>)
      requires Valid()
      modifies cocs.Values
      ensures Valid() && View() == old(View()).(cocs := CreditAll(old(View()).cocs, cid, credits))
      ensures overflowed == Overflowed(old(View()).cocs, cid, credits)
    {
      overflowed := {};
      ghost var before := View();
      ghost var all := Overflowed(before.cocs, cid, credits);
      CreditedEnds(before.cocs, cid, credits);
      var todo := cocs.Keys;
      while todo != {}
        invariant todo <= before.cocs.Keys
        invariant View() == before.(cocs := CreditedSoFar(before.cocs, todo, cid, credits))
        invariant forall j :: j in overflowed <==> j in all && j !in todo
        decreases |todo|
      {
        var k :| k in todo;
        assert todo - {k} + {k} == todo;
        todo := todo - {k};
        var refused := CreditTurn(k, cid, credits, before, todo);
        if refused {
          overflowed := overflowed + {k};
        }
      }
      assert overflowed == all;
    }

    /** One turn of that loop. */
    method CreditTurn(k: Uint16, cid: Uint16, credits: Uint16, ghost before: ConnState, ghost todo: set<Uint16>)
      returns (refused: bool)
      requires Valid() && k in before.cocs && k !in todo
      requires View() == before.(cocs := CreditedSoFar(before.cocs, todo + {k}, cid, credits))
      modifies cocs.Values
      ensures View() == before.(cocs := CreditedSoFar(before.cocs, todo, cid, credits))
      ensures refused <==> k in Overflowed(before.cocs, cid, credits)
    {
      CreditedStep(before.cocs, todo + {k}, cid, credits, k);
      assert todo + {k} - {k} == todo;
      assert k in View().cocs;
      refused := false;
      if cocs[k].txCID == cid {
        var reply := CreditOne(k, credits);
        refused := reply.RequestDisconnect?;
      }
    }
  }

  /** The channels when those in todo have not been reached yet. */
  function CreditedSoFar(before: map<Uint16, ChannelState>, todo: set<Uint16>, cid: Uint16, credits: Uint16)
    : map<Uint16, ChannelState>
  {
    map k | k in before :: if k !in todo && before[k].txCID == cid then Indicate(before[k], credits).0 else before[k]
  }

  lemma CreditedEnds(before: map<Uint16, ChannelState>, cid: Uint16, credits: Uint16)
    ensures CreditedSoFar(before, before.Keys, cid, credits) == before
    ensures CreditedSoFar(before, {}, cid, credits) == CreditAll(before, cid, credits)
    ensures Overflowed(before, cid, credits) <= before.Keys
  {
  }

  lemma CreditedStep(before: map<Uint16, ChannelState>, todo: set<Uint16>, cid: Uint16, credits: Uint16, k: Uint16)
    requires k in todo && k in before
    ensures var now := CreditedSoFar(before, todo, cid, credits);
            var next := CreditedSoFar(before, todo - {k}, cid, credits);
            && now[k] == before[k]
            && next == (if before[k].txCID == cid then now[k := Indicate(before[k], credits).0] else now)
  {
  }
}
