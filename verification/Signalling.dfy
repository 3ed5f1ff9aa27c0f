/** L2CAP signalling packets, their two halves, and the dispatcher. Vol 3 Part A section 4. */
module Signalling {
  import opened Bytes

  datatype SignallingPacket =
    | CommandReject(id: Byte, reason: Uint16, data: seq<Byte>)
    | ConnectionRequest(id: Byte, psm: Uint16, scid: Uint16)
    | ConnectionResponse(id: Byte, dcid: Uint16, scid: Uint16, result: Uint16, status: Uint16)
    | DisconnectionRequest(id: Byte, dcid: Uint16, scid: Uint16)
    | DisconnectionResponse(id: Byte, dcid: Uint16, scid: Uint16)
    | EchoRequest(id: Byte, data: seq<Byte>)
    | EchoResponse(id: Byte, data: seq<Byte>)
    | InformationRequest(id: Byte, infoType: Uint16)
    | InformationResponse(id: Byte, infoType: Uint16, result: Uint16, data: seq<Byte>)
    | ConnectionParameterUpdateRequest(
        id: Byte, intervalMin: Uint16, intervalMax: Uint16, latency: Uint16, timeout: Uint16)
    | ConnectionParameterUpdateResponse(id: Byte, result: Uint16)
    | LEConnectionRequest(id: Byte, spsm: Uint16, scid: Uint16, mtu: Uint16, mps: Uint16, credits: Uint16)
    | LEConnectionResponse(id: Byte, dcid: Uint16, mtu: Uint16, mps: Uint16, credits: Uint16, result: Uint16)
    | CreditIndication(id: Byte, cid: Uint16, credits: Uint16)
    | CreditConnectionRequest(id: Byte, spsm: Uint16, mtu: Uint16, mps: Uint16, credits: Uint16, cids: seq<Uint16>)
    | CreditConnectionResponse(id: Byte, mtu: Uint16, mps: Uint16, credits: Uint16, result: Uint16, cids: seq<Uint16>)

  function Opcode(p: SignallingPacket): Byte {
    match p
    case CommandReject(_, _, _) => 0x01
    case ConnectionRequest(_, _, _) => 0x02
    case ConnectionResponse(_, _, _, _, _) => 0x03
    case DisconnectionRequest(_, _, _) => 0x06
    case DisconnectionResponse(_, _, _) => 0x07
    case EchoRequest(_, _) => 0x08
    case EchoResponse(_, _) => 0x09
    case InformationRequest(_, _) => 0x0A
    case InformationResponse(_, _, _, _) => 0x0B
    case ConnectionParameterUpdateRequest(_, _, _, _, _) => 0x12
    case ConnectionParameterUpdateResponse(_, _) => 0x13
    case LEConnectionRequest(_, _, _, _, _, _) => 0x14
    case LEConnectionResponse(_, _, _, _, _, _) => 0x15
    case CreditIndication(_, _, _) => 0x16
    case CreditConnectionRequest(_, _, _, _, _, _) => 0x17
    case CreditConnectionResponse(_, _, _, _, _, _) => 0x18
  }

  /** Consecutive 16-bit little-endian words. */
  function Words(ws: seq<Uint16>): (r: seq<Byte>)
    ensures |r| == 2 * |ws|
  {
    if ws == [] then [] else LE16(ws[0]) + Words(ws[1..])
  }

  /** The n words of buf from position at. */
  function WordsAt(buf: seq<Byte>, at: nat, n: nat): (r: seq<Uint16>)
    requires at + 2 * n <= |buf|
    ensures |r| == n
    decreases n
  {
    if n == 0 then [] else [Get16(buf, at)] + WordsAt(buf, at + 2, n - 1)
  }

  /** The common shape: opcode, identifier, length, words, then bytes. */
  function Layout(op: Byte, id: Byte, length: Uint16, ws: seq<Uint16>, data: seq<Byte>): seq<Byte> {
    [op, id] + LE16(length) + Words(ws) + data
  }

  /** The fixed words of a packet that has the common shape. */
  function Fields(p: SignallingPacket): seq<Uint16>
    requires !p.EchoRequest? && !p.EchoResponse? && !p.InformationRequest?
  {
    match p
    case CommandReject(_, reason, _) => [reason]
    case ConnectionRequest(_, psm, scid) => [psm, scid]
    case ConnectionResponse(_, dcid, scid, result, status) => [dcid, scid, result, status]
    case DisconnectionRequest(_, dcid, scid) => [dcid, scid]
    case DisconnectionResponse(_, dcid, scid) => [dcid, scid]
    case InformationResponse(_, infoType, result, _) => [infoType, result]
    case ConnectionParameterUpdateRequest(_, min, max, latency, timeout) => [min, max, latency, timeout]
    case ConnectionParameterUpdateResponse(_, result) => [result]
    case LEConnectionRequest(_, spsm, scid, mtu, mps, credits) => [spsm, scid, mtu, mps, credits]
    case LEConnectionResponse(_, dcid, mtu, mps, credits, result) => [dcid, mtu, mps, credits, result]
    case CreditIndication(_, cid, credits) => [cid, credits]
    case CreditConnectionRequest(_, spsm, mtu, mps, credits, _) => [spsm, mtu, mps, credits]
    case CreditConnectionResponse(_, mtu, mps, credits, result, _) => [mtu, mps, credits, result]
  }

  /** The part of a packet whose size varies. */
  function Tail(p: SignallingPacket): seq<Byte> {
    match p
    case CommandReject(_, _, data) => data
    case EchoRequest(_, data) => data
    case EchoResponse(_, data) => data
    case InformationResponse(_, _, _, data) => data
    case CreditConnectionRequest(_, _, _, _, _, cids) => Words(cids)
    case CreditConnectionResponse(_, _, _, _, _, cids) => Words(cids)
    case _ => []
  }

  /** The length each Marshal writes. CreditConnectionRequest counts two bytes too many. */
  function LengthField(p: SignallingPacket): Uint16
    requires !p.EchoRequest? && !p.EchoResponse? && !p.InformationRequest?
  {
    Wrap16(2 * |Fields(p)| + |Tail(p)| + if p.CreditConnectionRequest? then 2 else 0)
  }

  /** Marshal. An echo carries no length at all, and an information request writes past its four-byte buffer. */
  function Marshal(p: SignallingPacket): Result<seq<Byte>> {
    if p.InformationRequest? then Err(IndexOutOfRange)
    else if p.EchoRequest? || p.EchoResponse? then Ok([Opcode(p), p.id] + p.data)
    else Ok(Layout(Opcode(p), p.id, LengthField(p), Fields(p), Tail(p)))
  }

  /** The guards of a packet type of fixed size. */
  function FixedGuard(buf: seq<Byte>, size: nat): Result<bool>
    requires size >= 4
  {
    if |buf| < size then Err(ShortBuffer)
    else if Get16(buf, 2) as int != size - 4 then Err(InvalidLength)
    else Ok(true)
  }

  /** Unmarshal for echo requests and responses: the length is read from where the data begins. */
  function EchoData(buf: seq<Byte>): Result<seq<Byte>> {
    if |buf| < 2 then Err(ShortBuffer)
    else if |buf| < 4 then Err(IndexOutOfRange)
    else if Get16(buf, 2) != Wrap16(|buf| - 2) then Err(InvalidLength)
    else Ok(buf[2..])
  }

  /** UnmarshalSignallingPacket. */
  function Unmarshal(buf: seq<Byte>): Result<SignallingPacket> {
    if |buf| < 1 then Err(ShortBuffer)
    else match buf[0]
      case 0x01 =>
        if |buf| < 6 then Err(ShortBuffer)
        else if |buf| - 6 != Get16(buf, 2) - 2 then Err(ShortBuffer)
        else Ok(CommandReject(buf[1], Get16(buf, 4), buf[6..]))
      case 0x02 => (match FixedGuard(buf, 8) case Err(e) => Err(e)
        case Ok(_) => Ok(ConnectionRequest(buf[1], Get16(buf, 4), Get16(buf, 6))))
      case 0x03 => (match FixedGuard(buf, 12) case Err(e) => Err(e)
        case Ok(_) => Ok(ConnectionResponse(buf[1], Get16(buf, 4), Get16(buf, 6), Get16(buf, 8), Get16(buf, 10))))
      case 0x06 => (match FixedGuard(buf, 8) case Err(e) => Err(e)
        case Ok(_) => Ok(DisconnectionRequest(buf[1], Get16(buf, 4), Get16(buf, 6))))
      case 0x07 => (match FixedGuard(buf, 8) case Err(e) => Err(e)
        case Ok(_) => Ok(DisconnectionResponse(buf[1], Get16(buf, 4), Get16(buf, 6))))
      case 0x08 => (match EchoData(buf) case Err(e) => Err(e) case Ok(data) => Ok(EchoRequest(buf[1], data)))
      case 0x09 => (match EchoData(buf) case Err(e) => Err(e) case Ok(data) => Ok(EchoResponse(buf[1], data)))
      case 0x0A =>
        if |buf| < 4 then Err(ShortBuffer)
        else if Get16(buf, 2) != 2 then Err(InvalidLength)
        else if |buf| < 6 then Err(IndexOutOfRange)
        else Ok(InformationRequest(buf[1], Get16(buf, 4)))
      case 0x0B =>
        if |buf| < 8 then Err(ShortBuffer)
        else if Get16(buf, 2) != Wrap16(|buf| - 4) then Err(InvalidLength)
        else Ok(InformationResponse(buf[1], Get16(buf, 4), Get16(buf, 6), buf[8..]))
      case 0x12 => (match FixedGuard(buf, 12) case Err(e) => Err(e)
        case Ok(_) =>
          Ok(ConnectionParameterUpdateRequest(buf[1], Get16(buf, 4), Get16(buf, 6), Get16(buf, 8), Get16(buf, 10))))
      case 0x13 => (match FixedGuard(buf, 6) case Err(e) => Err(e)
        case Ok(_) => Ok(ConnectionParameterUpdateResponse(buf[1], Get16(buf, 4))))
      case 0x14 => (match FixedGuard(buf, 14) case Err(e) => Err(e)
        case Ok(_) => Ok(LEConnectionRequest(
                           buf[1], Get16(buf, 4), Get16(buf, 6), Get16(buf, 8), Get16(buf, 10), Get16(buf, 12))))
      case 0x15 => (match FixedGuard(buf, 14) case Err(e) => Err(e)
        case Ok(_) => Ok(LEConnectionResponse(
                           buf[1], Get16(buf, 4), Get16(buf, 6), Get16(buf, 8), Get16(buf, 10), Get16(buf, 12))))
      case 0x16 => (match FixedGuard(buf, 8) case Err(e) => Err(e)
        case Ok(_) => Ok(CreditIndication(buf[1], Get16(buf, 4), Get16(buf, 6))))
      case 0x17 =>
        if |buf| < 12 then Err(ShortBuffer)
        else if Get16(buf, 2) != Wrap16(|buf| - 4) then Err(InvalidLength)
        else Ok(CreditConnectionRequest(buf[1], Get16(buf, 4), Get16(buf, 6), Get16(buf, 8), Get16(buf, 10),
                                        WordsAt(buf, 12, (|buf| - 12) / 2)))
      case 0x18 =>
        if |buf| < 12 then Err(ShortBuffer)
        else if Get16(buf, 2) != Wrap16(|buf| - 4) then Err(InvalidLength)
        else Ok(CreditConnectionResponse(buf[1], Get16(buf, 4), Get16(buf, 6), Get16(buf, 8), Get16(buf, 10),
                                         WordsAt(buf, 12, (|buf| - 12) / 2)))
      case 0x04 => Err(NotImplemented)
      case 0x05 => Err(NotImplemented)
      case 0x19 => Err(NotImplemented)
      case 0x1A => Err(NotImplemented)
      case _ => Err(InvalidOpcode)
  }

  // ------------------------------------------------------------------ the two halves compared

  /** Exactly the packets that come back as they went in. */
  predicate SurvivesRoundTrip(p: SignallingPacket) {
    match p
    case CommandReject(_, _, data) => |data| <= 0xFFFF - 2
    case EchoRequest(_, data) => |data| >= 2 && Get16(data, 0) == Wrap16(|data|)
    case EchoResponse(_, data) => |data| >= 2 && Get16(data, 0) == Wrap16(|data|)
    case InformationRequest(_, _) => false
    case CreditConnectionRequest(_, _, _, _, _, _) => false
    case _ => true
  }

  lemma {:induction false} WordsRoundTrip(pre: seq<Byte>, ws: seq<Uint16>, post: seq<Byte>)
    ensures WordsAt(pre + Words(ws) + post, |pre|, |ws|) == ws
    decreases |ws|
  {
    if ws != [] {
      var buf := pre + Words(ws) + post;
      assert Get16(buf, |pre|) == ws[0] by {
        assert buf[|pre|] == LE16(ws[0])[0] && buf[|pre| + 1] == LE16(ws[0])[1];
      }
      var head := pre + LE16(ws[0]);
      assert buf == head + Words(ws[1..]) + post;
      WordsRoundTrip(head, ws[1..], post);
      assert |head| == |pre| + 2;
      assert WordsAt(buf, |pre|, |ws|) == [ws[0]] + ws[1..];
    }
  }

  /** Reading back what Layout wrote. */
  lemma LayoutReads(op: Byte, id: Byte, length: Uint16, ws: seq<Uint16>, data: seq<Byte>)
    ensures var buf := Layout(op, id, length, ws, data);
            && |buf| == 4 + 2 * |ws| + |data|
            && buf[0] == op && buf[1] == id && Get16(buf, 2) == length
            && (|ws| > 0 ==> Get16(buf, 4) == ws[0])
            && (|ws| > 1 ==> Get16(buf, 6) == ws[1])
            && (|ws| > 2 ==> Get16(buf, 8) == ws[2])
            && (|ws| > 3 ==> Get16(buf, 10) == ws[3])
            && (|ws| > 4 ==> Get16(buf, 12) == ws[4])
            && buf[4 + 2 * |ws|..] == data
  {
    var buf := Layout(op, id, length, ws, data);
    WordsRoundTrip([op, id] + LE16(length), ws, data);
    forall i | 0 <= i < |ws| ensures Get16(buf, 4 + 2 * i) == ws[i] {
      WordsAtIndex(buf, 4, |ws|, i);
    }
  }

  lemma {:induction false} WordsAtIndex(buf: seq<Byte>, at: nat, n: nat, i: nat)
    requires at + 2 * n <= |buf| && i < n
    ensures WordsAt(buf, at, n)[i] == Get16(buf, at + 2 * i)
    decreases i
  {
    if i > 0 {
      WordsAtIndex(buf, at + 2, n - 1, i - 1);
    }
  }

  /** The packets made of words alone. */
  predicate FixedSize(p: SignallingPacket) {
    match p
    case CommandReject(_, _, _) => false
    case EchoRequest(_, _) => false
    case EchoResponse(_, _) => false
    case InformationRequest(_, _) => false
    case InformationResponse(_, _, _, _) => false
    case CreditConnectionRequest(_, _, _, _, _, _) => false
    case CreditConnectionResponse(_, _, _, _, _, _) => false
    case _ => true
  }

  lemma FixedRoundTrip(p: SignallingPacket)
    requires FixedSize(p)
    ensures Marshal(p).Ok? && Unmarshal(Marshal(p).value) == Ok(p)
  {
    LayoutReads(Opcode(p), p.id, LengthField(p), Fields(p), Tail(p));
    match p {
      case ConnectionRequest(_, _, _) =>
      case ConnectionResponse(_, _, _, _, _) =>
      case DisconnectionRequest(_, _, _) =>
      case DisconnectionResponse(_, _, _) =>
      case ConnectionParameterUpdateRequest(_, _, _, _, _) =>
      case ConnectionParameterUpdateResponse(_, _) =>
      case LEConnectionRequest(_, _, _, _, _, _) =>
      case LEConnectionResponse(_, _, _, _, _, _) =>
      case CreditIndication(_, _, _) =>
    }
  }

  lemma EchoRoundTrip(p: SignallingPacket)
    requires p.EchoRequest? || p.EchoResponse?
    ensures Unmarshal(Marshal(p).value) == Ok(p) <==> SurvivesRoundTrip(p)
  {
    var buf := Marshal(p).value;
    assert buf[2..] == p.data;
    assert |p.data| >= 2 ==> Get16(buf, 2) == Get16(p.data, 0);
  }

  lemma DataRoundTrip(p: SignallingPacket)
    requires p.CommandReject? || p.InformationResponse?
    ensures Unmarshal(Marshal(p).value) == Ok(p) <==> SurvivesRoundTrip(p)
  {
    LayoutReads(Opcode(p), p.id, LengthField(p), Fields(p), Tail(p));
  }

  lemma CidResponseRoundTrip(p: SignallingPacket)
    requires p.CreditConnectionResponse?
    ensures Unmarshal(Marshal(p).value) == Ok(p)
  {
    var buf := Marshal(p).value;
    LayoutReads(Opcode(p), p.id, LengthField(p), Fields(p), Tail(p));
    assert buf == buf[..12] + Words(p.cids) + [];
    WordsRoundTrip(buf[..12], p.cids, []);
    assert WordsAt(buf, 12, (|buf| - 12) / 2) == p.cids;
  }

  lemma CidRequestRefused(p: SignallingPacket)
    requires p.CreditConnectionRequest?
    ensures Unmarshal(Marshal(p).value) == Err(InvalidLength)
  {
    LayoutReads(Opcode(p), p.id, LengthField(p), Fields(p), Tail(p));
  }

  /** The signalling round trip through the dispatcher, for every packet of every type and size. */
  lemma SignallingRoundTrip(p: SignallingPacket)
    ensures (Marshal(p).Ok? && Unmarshal(Marshal(p).value) == Ok(p)) <==> SurvivesRoundTrip(p)
  {
    if FixedSize(p) {
      FixedRoundTrip(p);
    } else if p.EchoRequest? || p.EchoResponse? {
      EchoRoundTrip(p);
    } else if p.CommandReject? || p.InformationResponse? {
      DataRoundTrip(p);
    } else if p.CreditConnectionResponse? {
      CidResponseRoundTrip(p);
    } else if p.CreditConnectionRequest? {
      CidRequestRefused(p);
    }
  }

  /** The length on the wire is the length of what follows it, for every packet that has one, up to 65535 bytes: above
      that it is truncated although the packet still round-trips here. CreditConnectionRequest never tells the truth. */
  lemma LengthOnTheWire(p: SignallingPacket)
    requires Marshal(p).Ok? && !p.EchoRequest? && !p.EchoResponse?
    ensures var buf := Marshal(p).value;
            Get16(buf, 2) as int == |buf| - 4 <==> |buf| - 4 <= 0xFFFF && !p.CreditConnectionRequest?
  {
    LayoutReads(Opcode(p), p.id, LengthField(p), Fields(p), Tail(p));
  }

  lemma {:induction false} WordsReproduce(buf: seq<Byte>, at: nat, n: nat)
    requires at + 2 * n <= |buf|
    ensures Words(WordsAt(buf, at, n)) == buf[at..at + 2 * n]
    decreases n
  {
    if n > 0 {
      WordsReproduce(buf, at + 2, n - 1);
      assert LE16(Get16(buf, at)) == buf[at..at + 2];
    }
  }

  /** Any buffer is the layout of its own header, words and rest. */
  lemma LayoutOf(buf: seq<Byte>, ws: seq<Uint16>, n: nat)
    requires 4 + 2 * n <= |buf| && |ws| == n
    requires forall i :: 0 <= i < n ==> ws[i] == Get16(buf, 4 + 2 * i)
    ensures Layout(buf[0], buf[1], Get16(buf, 2), ws, buf[4 + 2 * n..]) == buf
  {
    forall i | 0 <= i < n ensures WordsAt(buf, 4, n)[i] == ws[i] {
      WordsAtIndex(buf, 4, n, i);
    }
    assert WordsAt(buf, 4, n) == ws;
    WordsReproduce(buf, 4, n);
    assert [buf[0], buf[1]] + LE16(Get16(buf, 2)) == buf[..4];
  }

  /** An accepted packet of fixed size holds the header and words of its buffer. */
  lemma FixedFields(buf: seq<Byte>)
    requires Unmarshal(buf).Ok? && FixedSize(Unmarshal(buf).value)
    ensures var p := Unmarshal(buf).value;
            && Opcode(p) == buf[0] && p.id == buf[1]
            && 4 + 2 * |Fields(p)| <= |buf|
            && (forall i :: 0 <= i < |Fields(p)| ==> Fields(p)[i] == Get16(buf, 4 + 2 * i))
  {
  }

  lemma FixedLength(buf: seq<Byte>)
    requires Unmarshal(buf).Ok? && FixedSize(Unmarshal(buf).value)
    ensures LengthField(Unmarshal(buf).value) == Get16(buf, 2)
  {
  }

  lemma FixedReproduces(buf: seq<Byte>)
    requires Unmarshal(buf).Ok? && FixedSize(Unmarshal(buf).value)
    ensures Marshal(Unmarshal(buf).value).Ok? && Marshal(Unmarshal(buf).value).value <= buf
  {
    var p := Unmarshal(buf).value;
    var n := |Fields(p)|;
    FixedFields(buf);
    FixedLength(buf);
    LayoutOf(buf, Fields(p), n);
    var head := Layout(buf[0], buf[1], Get16(buf, 2), Fields(p), []);
    assert head + buf[4 + 2 * n..] == buf;
    assert Marshal(p).value == head;
  }

  lemma DataReproduces(buf: seq<Byte>)
    requires Unmarshal(buf).Ok?
    requires Unmarshal(buf).value.CommandReject? || Unmarshal(buf).value.InformationResponse?
    ensures Marshal(Unmarshal(buf).value) == Ok(buf)
  {
    var p := Unmarshal(buf).value;
    LayoutOf(buf, Fields(p), |Fields(p)|);
  }

  predicate HasCids(p: SignallingPacket) {
    p.CreditConnectionRequest? || p.CreditConnectionResponse?
  }

  /** An accepted packet with a list of identifiers holds the header and words of its buffer. */
  lemma CidListShape(buf: seq<Byte>)
    requires Unmarshal(buf).Ok? && HasCids(Unmarshal(buf).value)
    ensures var p := Unmarshal(buf).value;
            && |buf| >= 12 && Get16(buf, 2) == Wrap16(|buf| - 4) && Opcode(p) == buf[0] && p.id == buf[1]
            && Fields(p) == [Get16(buf, 4), Get16(buf, 6), Get16(buf, 8), Get16(buf, 10)]
            && Tail(p) == Words(WordsAt(buf, 12, (|buf| - 12) / 2)) && |Tail(p)| == 2 * ((|buf| - 12) / 2)
  {
  }

  /** The length Marshal writes for it. */
  lemma CidLengthField(p: SignallingPacket, n: nat)
    requires HasCids(p) && |Tail(p)| == 2 * (n / 2)
    ensures LengthField(p) == Wrap16(8 + 2 * (n / 2) + if p.CreditConnectionRequest? then 2 else 0)
  {
  }

  lemma LayoutHeader(op: Byte, id: Byte, length: Uint16, ws: seq<Uint16>, data: seq<Byte>)
    ensures var buf := Layout(op, id, length, ws, data);
            |buf| == 4 + 2 * |ws| + |data| && Get16(buf, 2) == length
  {
  }

  lemma CidListLength(buf: seq<Byte>)
    requires Unmarshal(buf).Ok? && HasCids(Unmarshal(buf).value)
    ensures var p := Unmarshal(buf).value; var b := Marshal(p).value;
            && |b| == 12 + 2 * ((|buf| - 12) / 2) && Get16(b, 2) == LengthField(p)
            && (LengthField(p) == Get16(buf, 2) <==> p.CreditConnectionResponse? && |buf| % 2 == 0)
  {
    var p := Unmarshal(buf).value;
    var n := |buf| - 12;
    CidListShape(buf);
    CidLengthField(p, n);
    LayoutHeader(Opcode(p), p.id, LengthField(p), Fields(p), Tail(p));
    LengthsAgree(n, p.CreditConnectionRequest?);
  }

  /** The length written for n/2 identifiers against the length of what follows the header. */
  lemma LengthsAgree(n: nat, request: bool)
    ensures Wrap16(8 + 2 * (n / 2) + if request then 2 else 0) == Wrap16(n + 8) <==> !request && n % 2 == 0
  {
    HalfEven(n);
    NearbyWraps(n + 8);
  }

  /** Numbers at most two apart agree in sixteen bits only if they are equal. */
  lemma NearbyWraps(n: nat)
    requires n >= 1
    ensures Wrap16(n) != Wrap16(n + 1) && Wrap16(n) != Wrap16(n + 2) && Wrap16(n) != Wrap16(n - 1)
  {
  }

  lemma HalfEven(n: nat)
    ensures 2 * (n / 2) == if n % 2 == 0 then n else n - 1
  {
  }

  lemma EvenCidListReproduces(buf: seq<Byte>)
    requires Unmarshal(buf).Ok? && Unmarshal(buf).value.CreditConnectionResponse? && |buf| % 2 == 0
    ensures Marshal(Unmarshal(buf).value) == Ok(buf)
  {
    var p := Unmarshal(buf).value;
    CidListShape(buf);
    CidListLength(buf);
    LayoutOf(buf, Fields(p), 4);
    WordsReproduce(buf, 12, (|buf| - 12) / 2);
    assert buf[12..12 + 2 * ((|buf| - 12) / 2)] == buf[12..];
  }

  lemma {:induction false} CidListReproduces(buf: seq<Byte>)
    requires Unmarshal(buf).Ok? && HasCids(Unmarshal(buf).value)
    ensures var p := Unmarshal(buf).value; var b := Marshal(p).value;
            && (b <= buf <==> p.CreditConnectionResponse? && |buf| % 2 == 0)
            && (b <= buf ==> b == buf)
  {
    CidListLength(buf);
    var b := Marshal(Unmarshal(buf).value).value;
    if Unmarshal(buf).value.CreditConnectionResponse? && |buf| % 2 == 0 {
      EvenCidListReproduces(buf);
    }
    assert b <= buf ==> Get16(b, 2) == Get16(buf, 2);
  }

  /** Conversely, an accepted buffer starts with what Marshal would write for the packet read from it: exactly so for
      the types of variable size, up to ignored trailing bytes for the others. The exceptions are the two types whose
      Marshal is wrong and a list of channel identifiers with half an identifier behind it. */
  lemma AcceptedPacketIsMarshalled(buf: seq<Byte>)
    requires Unmarshal(buf).Ok?
    ensures var p := Unmarshal(buf).value;
            && ((Marshal(p).Ok? && Marshal(p).value <= buf)
                <==> !(p.InformationRequest? || p.CreditConnectionRequest?
                       || (p.CreditConnectionResponse? && |buf| % 2 == 1)))
            && (Marshal(p).Ok? && Marshal(p).value <= buf && !FixedSize(p) ==> Marshal(p).value == buf)
  {
    var p := Unmarshal(buf).value;
    if FixedSize(p) {
      FixedReproduces(buf);
    } else if p.EchoRequest? || p.EchoResponse? {
      assert Marshal(p) == Ok([buf[0], buf[1]] + buf[2..]);
      assert [buf[0], buf[1]] + buf[2..] == buf;
    } else if p.CommandReject? || p.InformationResponse? {
      DataReproduces(buf);
    } else if !p.InformationRequest? {
      CidListReproduces(buf);
    }
  }

  // ------------------------------------------------------------------ the halves that fill and read buffers in place

  /** The loop that writes a list of channel identifiers. */
  method PutCids(b: array<Byte>, at: nat, cids: seq<Uint16>)
    requires at + 2 * |cids| == b.Length
    modifies b
    ensures b[..] == old(b[..at]) + Words(cids)
  {
    var i := 0;
    WordsPrefix(cids, 0);
    while i < |cids|
      invariant 0 <= i <= |cids|
      invariant b[..at + 2 * i] == old(b[..at]) + Words(cids[..i])
    {
      Put16(b, at + i * 2, cids[i]);
      WordsPrefix(cids, i);
      assert b[..at + 2 * (i + 1)] == b[..at + 2 * i] + LE16(cids[i]);
      i := i + 1;
    }
    assert cids[..i] == cids;
    assert b[..at + 2 * i] == b[..];
  }

  lemma {:induction false} WordsPrefix(ws: seq<Uint16>, i: nat)
    requires i <= |ws|
    ensures i < |ws| ==> Words(ws[..i + 1]) == Words(ws[..i]) + LE16(ws[i])
    ensures i == 0 ==> Words(ws[..i]) == []
    decreases i
  {
    if 0 < i < |ws| {
      WordsPrefix(ws[1..], i - 1);
      assert ws[..i + 1][1..] == ws[1..][..i];
      assert ws[..i][1..] == ws[1..][..i - 1];
    } else if i == 0 && |ws| > 0 {
      assert ws[..1][1..] == [];
      assert Words(ws[..1]) == LE16(ws[0]) + Words([]);
    }
  }

  /** The loop that reads one. */
  method GetCids(buf: seq<Byte>, at: nat) returns (cids: seq<Uint16>)
    requires at <= |buf|
    ensures cids == WordsAt(buf, at, (|buf| - at) / 2)
  {
    var n := (|buf| - at) / 2;
    cids := [];
    var i := 0;
    while i < n
      invariant 0 <= i <= n && |cids| == i
      invariant cids + WordsAt(buf, at + i * 2, n - i) == WordsAt(buf, at, n)
    {
      ghost var rest := WordsAt(buf, at + (i + 1) * 2, n - i - 1);
      assert cids + ([Get16(buf, at + i * 2)] + rest) == (cids + [Get16(buf, at + i * 2)]) + rest;
      cids := cids + [Get16(buf, at + i * 2)];
      i := i + 1;
    }
  }

  lemma WordsOf(a: Uint16, b: Uint16, c: Uint16, d: Uint16, e: Uint16)
    ensures Words([a]) == LE16(a)
    ensures Words([a, b]) == LE16(a) + LE16(b)
    ensures Words([a, b, c, d]) == LE16(a) + LE16(b) + LE16(c) + LE16(d)
    ensures Words([a, b, c, d, e]) == LE16(a) + LE16(b) + LE16(c) + LE16(d) + LE16(e)
  {
    WordsSnoc([], a);
    WordsSnoc([a], b);
    WordsSnoc([a, b], c);
    WordsSnoc([a, b, c], d);
    WordsSnoc([a, b, c, d], e);
    assert [a, b] + [c] == [a, b, c] && [a, b, c] + [d] == [a, b, c, d] && [a, b, c, d] + [e] == [a, b, c, d, e];
  }

  lemma WordsSnoc(ws: seq<Uint16>, w: Uint16)
    ensures Words(ws + [w]) == Words(ws) + LE16(w)
  {
    WordsPrefix(ws + [w], |ws|);
    assert (ws + [w])[..|ws| + 1] == ws + [w] && (ws + [w])[..|ws|] == ws;
  }

  /** The header every packet but an echo starts with. */
  method PutHeader(b: array<Byte>, op: Byte, id: Byte, length: Uint16)
    requires b.Length >= 4
    modifies b
    ensures b[..] == [op, id] + LE16(length) + old(b[4..])
  {
    b[0] := op;
    b[1] := id;
    Put16(b, 2, length);
  }

  /** Marshal for the packets of one, two, four and five words. */
  method FillOne(op: Byte, id: Byte, w: Uint16) returns (b: array<Byte>)
    ensures fresh(b) && b[..] == Layout(op, id, 2, [w], [])
  {
    b := new Byte[6];
    PutHeader(b, op, id, 2);
    Put16(b, 4, w);
    WordsOf(w, 0, 0, 0, 0);
  }

  method FillTwo(op: Byte, id: Byte, w: Uint16, x: Uint16) returns (b: array<Byte>)
    ensures fresh(b) && b[..] == Layout(op, id, 4, [w, x], [])
  {
    b := new Byte[8];
    PutHeader(b, op, id, 4);
    Put16(b, 4, w);
    Put16(b, 6, x);
    WordsOf(w, x, 0, 0, 0);
  }

  method FillFour(op: Byte, id: Byte, w: Uint16, x: Uint16, y: Uint16, z: Uint16) returns (b: array<Byte>)
    ensures fresh(b) && b[..] == Layout(op, id, 8, [w, x, y, z], [])
  {
    b := new Byte[12];
    PutHeader(b, op, id, 8);
    Put16(b, 4, w);
    Put16(b, 6, x);
    Put16(b, 8, y);
    Put16(b, 10, z);
    WordsOf(w, x, y, z, 0);
  }

  method FillFive(op: Byte, id: Byte, w: Uint16, x: Uint16, y: Uint16, z: Uint16, v: Uint16) returns (b: array<Byte>)
    ensures fresh(b) && b[..] == Layout(op, id, 10, [w, x, y, z, v], [])
  {
    b := new Byte[14];
    PutHeader(b, op, id, 10);
    Put16(b, 4, w);
    Put16(b, 6, x);
    Put16(b, 8, y);
    Put16(b, 10, z);
    Put16(b, 12, v);
    WordsOf(w, x, y, z, v);
  }

  /** Marshal for the packets with a list of channel identifiers; `excess` is 2 for the request, which miscounts. */
  method FillCids(op: Byte, id: Byte, w: Uint16, x: Uint16, y: Uint16, z: Uint16, cids: seq<Uint16>, excess: nat)
    returns (b: array<Byte>)
    ensures fresh(b) && b[..] == Layout(op, id, Wrap16(|cids| * 2 + 8 + excess), [w, x, y, z], Words(cids))
  {
    b := new Byte[12 + |cids| * 2];
    PutHeader(b, op, id, Wrap16(|cids| * 2 + 8 + excess));
    Put16(b, 4, w);
    Put16(b, 6, x);
    Put16(b, 8, y);
    Put16(b, 10, z);
    WordsOf(w, x, y, z, 0);
    assert b[..12] == [op, id] + LE16(Wrap16(|cids| * 2 + 8 + excess)) + Words([w, x, y, z]);
    PutCids(b, 12, cids);
  }

  /** Marshal for the packets that end in bytes. */
  method FillReject(id: Byte, reason: Uint16, data: seq<Byte>) returns (b: array<Byte>)
    ensures fresh(b) && b[..] == Layout(0x01, id, Wrap16(|data| + 2), [reason], data)
  {
    b := new Byte[6 + |data|];
    PutHeader(b, 0x01, id, Wrap16(|data| + 2));
    Put16(b, 4, reason);
    CopyAt(b, 6, data);
    WordsOf(reason, 0, 0, 0, 0);
    assert b[..] == Layout(0x01, id, Wrap16(|data| + 2), [reason], data);
  }

  method FillInformation(id: Byte, infoType: Uint16, result: Uint16, info: seq<Byte>) returns (b: array<Byte>)
    ensures fresh(b) && b[..] == Layout(0x0B, id, Wrap16(|info| + 4), [infoType, result], info)
  {
    b := new Byte[8 + |info|];
    PutHeader(b, 0x0B, id, Wrap16(|info| + 4));
    Put16(b, 4, infoType);
    Put16(b, 6, result);
    CopyAt(b, 8, info);
    WordsOf(infoType, result, 0, 0, 0);
    assert b[..] == Layout(0x0B, id, Wrap16(|info| + 4), [infoType, result], info);
  }

  method FillEcho(op: Byte, id: Byte, data: seq<Byte>) returns (b: array<Byte>)
    ensures fresh(b) && b[..] == [op, id] + data
  {
    b := new Byte[2 + |data|];
    b[0] := op;
    b[1] := id;
    CopyAt(b, 2, data);
  }

  /** Marshal for the packets of fixed size. */
  method MarshalFixed(p: SignallingPacket) returns (b: array<Byte>)
    requires FixedSize(p)
    ensures fresh(b) && Marshal(p) == Ok(b[..])
  {
    match p {
      case ConnectionRequest(id, psm, scid) => b := FillTwo(0x02, id, psm, scid);
      case ConnectionResponse(id, dcid, scid, result, status) => b := FillFour(0x03, id, dcid, scid, result, status);
      case DisconnectionRequest(id, dcid, scid) => b := FillTwo(0x06, id, dcid, scid);
      case DisconnectionResponse(id, dcid, scid) => b := FillTwo(0x07, id, dcid, scid);
      case ConnectionParameterUpdateRequest(id, min, max, latency, timeout) =>
        b := FillFour(0x12, id, min, max, latency, timeout);
      case ConnectionParameterUpdateResponse(id, result) => b := FillOne(0x13, id, result);
      case LEConnectionRequest(id, spsm, scid, mtu, mps, credits) =>
        b := FillFive(0x14, id, spsm, scid, mtu, mps, credits);
      case LEConnectionResponse(id, dcid, mtu, mps, credits, result) =>
        b := FillFive(0x15, id, dcid, mtu, mps, credits, result);
      case CreditIndication(id, cid, credits) => b := FillTwo(0x16, id, cid, credits);
    }
  }

  /** Every Marshal, filling its buffer in place; none where the source writes out of bounds. */
  method MarshalInPlace(p: SignallingPacket) returns (r: Result<seq<Byte>>)
    ensures r == Marshal(p)
  {
    var b;
    if FixedSize(p) {
      b := MarshalFixed(p);
    } else {
      match p {
        case CommandReject(id, reason, data) => b := FillReject(id, reason, data);
        case EchoRequest(id, data) => b := FillEcho(0x08, id, data);
        case EchoResponse(id, data) => b := FillEcho(0x09, id, data);
        case InformationRequest(_, _) => return Err(IndexOutOfRange);
        case InformationResponse(id, infoType, result, info) => b := FillInformation(id, infoType, result, info);
        case CreditConnectionRequest(id, spsm, mtu, mps, credits, cids) =>
          b := FillCids(0x17, id, spsm, mtu, mps, credits, cids, 2);
        case CreditConnectionResponse(id, mtu, mps, credits, result, cids) =>
          b := FillCids(0x18, id, mtu, mps, credits, result, cids, 0);
      }
    }
    r := Ok(b[..]);
  }
}
