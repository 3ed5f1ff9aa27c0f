/** Several channels on one connection: where the credits of an indication go, and when they multiply. */
module CreditFanOut {
  import opened Bytes
  import opened Sums
  import opened ChannelStates
  import opened Connections
  import opened EndToEnd
  import W = WireSystem
  import S = Signalling

  /** The transmit credits of every channel of a connection. */
  function Balances(cocs: map<Uint16, ChannelState>): map<Uint16, nat> {
    map k | k in cocs :: cocs[k].txCredits as nat
  }

  /** The credits a PDU says it brings. */
  function Announced(pdu: seq<Byte>): nat {
    if IsIndication(pdu) then Indication(pdu).credits else 0
  }

  /** The channels that take them: those that send to the named identifier and would not overflow. */
  function Takers(s: ConnState, pdu: seq<Byte>): set<Uint16>
    requires IsIndication(pdu)
  {
    var p := Indication(pdu);
    WithTxCID(s, p.cid) - Overflowed(s.cocs, p.cid, p.credits)
  }

  lemma IndicationRaises(s: ConnState, cid: Uint16, n: Uint16)
    ensures var takers := WithTxCID(s, cid) - Overflowed(s.cocs, cid, n);
            Sum(Balances(CreditAll(s.cocs, cid, n))) == Sum(Balances(s.cocs)) + n * |takers|
  {
    var takers := WithTxCID(s, cid) - Overflowed(s.cocs, cid, n);
    SumRaised(Balances(s.cocs), Balances(CreditAll(s.cocs, cid, n)), takers, n);
  }

  /** Nothing but an indication changes what the channels may send. */
  lemma OthersRaiseNothing(s: ConnState, pdu: seq<Byte>)
    requires !IsIndication(pdu)
    ensures Balances(HandlePdu(s, pdu).0.cocs) == Balances(s.cocs)
  {
  }

  /** One PDU raises the transmit credits of the whole connection by what it announces, once for every channel that
      takes it; nothing else a peer sends moves them. */
  lemma {:induction false} CreditsGoToEveryTaker(s: ConnState, pdu: seq<Byte>)
    ensures Sum(Balances(HandlePdu(s, pdu).0.cocs))
         == Sum(Balances(s.cocs)) + if IsIndication(pdu) then Announced(pdu) * |Takers(s, pdu)| else 0
  {
    if IsIndication(pdu) {
      var p := Indication(pdu);
      IndicationRaises(s, p.cid, p.credits);
      assert HandlePdu(s, pdu).0.cocs == CreditAll(s.cocs, p.cid, p.credits);
    } else {
      OthersRaiseNothing(s, pdu);
    }
  }

  /** No two channels send to the same identifier. */
  predicate DistinctPeers(s: ConnState) {
    forall j, k :: j in s.cocs && k in s.cocs && s.cocs[j].txCID == s.cocs[k].txCID ==> j == k
  }

  lemma AtMostOneTaker(s: ConnState, pdu: seq<Byte>)
    requires DistinctPeers(s) && IsIndication(pdu)
    ensures |Takers(s, pdu)| <= 1
  {
    var takers := Takers(s, pdu);
    if takers != {} {
      var k :| k in takers;
      assert takers == {k};
    }
  }

  function Announcements(pdus: seq<seq<Byte>>): nat {
    if pdus == [] then 0 else Announced(pdus[0]) + Announcements(pdus[1..])
  }

  lemma PeersStay(s: ConnState, pdu: seq<Byte>)
    ensures var t := HandlePdu(s, pdu).0;
            t.cocs.Keys == s.cocs.Keys && forall k :: k in s.cocs ==> t.cocs[k].txCID == s.cocs[k].txCID
  {
  }

  lemma DistinctStep(s: ConnState, pdu: seq<Byte>)
    requires DistinctPeers(s)
    ensures DistinctPeers(HandlePdu(s, pdu).0)
    ensures Sum(Balances(HandlePdu(s, pdu).0.cocs)) <= Sum(Balances(s.cocs)) + Announced(pdu)
  {
    PeersStay(s, pdu);
    CreditsGoToEveryTaker(s, pdu);
    if IsIndication(pdu) {
      AtMostOneTaker(s, pdu);
      TimesAtMostOne(Announced(pdu), |Takers(s, pdu)|);
    }
  }

  lemma TimesAtMostOne(n: nat, k: nat)
    requires k <= 1
    ensures n * k <= n
  {
  }

  /** Conservation over a whole connection: as long as no two channels send to the same identifier, no run of PDUs gives
      the channels together more credits than its indications announce. */
  lemma {:induction false} CreditsDoNotMultiply(s: ConnState, pdus: seq<seq<Byte>>)
    requires DistinctPeers(s)
    ensures Sum(Balances(ConnRun(s, Inbounds(pdus)).cocs)) <= Sum(Balances(s.cocs)) + Announcements(pdus)
    decreases |pdus|
  {
    if pdus != [] {
      DistinctStep(s, pdus[0]);
      CreditsDoNotMultiply(HandlePdu(s, pdus[0]).0, pdus[1..]);
      assert Inbounds(pdus)[1..] == Inbounds(pdus[1..]);
    }
  }

  /** Two channels of the connection send to the same identifier and have room for another credit. */
  predicate SharedPeer(s: ConnState, j: Uint16, k: Uint16) {
    && j != k && j in s.cocs && k in s.cocs && s.cocs[j].txCID == s.cocs[k].txCID
    && s.cocs[j].txCredits < 0xFFFF && s.cocs[k].txCredits < 0xFFFF
  }

  /** Since a request for a source identifier already in use is accepted, the condition can fail, and exactly when it
      does, with room left, some PDU gives more credits than it announces. */
  lemma CreditsMultiply(s: ConnState)
    ensures (exists pdu :: Sum(Balances(HandlePdu(s, pdu).0.cocs)) > Sum(Balances(s.cocs)) + Announced(pdu))
            <==> (exists j, k :: SharedPeer(s, j, k))
  {
    forall pdu | Sum(Balances(HandlePdu(s, pdu).0.cocs)) > Sum(Balances(s.cocs)) + Announced(pdu)
      ensures exists j, k :: SharedPeer(s, j, k)
    {
      CreditsGoToEveryTaker(s, pdu);
      TwoTakers(s, pdu);
    }
    forall j, k | SharedPeer(s, j, k)
      ensures exists pdu :: Sum(Balances(HandlePdu(s, pdu).0.cocs)) > Sum(Balances(s.cocs)) + Announced(pdu)
    {
      var pdu := W.SignalPdu(S.CreditIndication(0, s.cocs[j].txCID, 1));
      W.CreditsMessage(0, s.cocs[j].txCID, 0, s.cocs[j].txCID, 1);
      assert IsIndication(pdu) && Announced(pdu) == 1;
      CreditsGoToEveryTaker(s, pdu);
      assert {j, k} <= Takers(s, pdu);
      SubsetSize({j, k}, Takers(s, pdu));
    }
  }

  lemma TwoTakers(s: ConnState, pdu: seq<Byte>)
    requires IsIndication(pdu) && Announced(pdu) * |Takers(s, pdu)| > Announced(pdu)
    ensures exists j, k :: SharedPeer(s, j, k)
  {
    var takers := Takers(s, pdu);
    if |takers| <= 1 {
      TimesAtMostOne(Announced(pdu), |takers|);
    }
    var j :| j in takers;
    var others := takers - {j};
    assert |others| > 0;
    var k :| k in others;
    assert SharedPeer(s, j, k);
  }

  lemma {:induction false} SubsetSize<T>(a: set<T>, b: set<T>)
    requires a <= b
    ensures |a| <= |b|
  {
    assert |b| == |a| + |b - a| by {
      assert a + (b - a) == b;
    }
  }
}
