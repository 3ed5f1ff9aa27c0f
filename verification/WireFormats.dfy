/** The byte formats of both protocols, written out, and exactly what each parser accepts. */
module WireFormats {
  import opened Bytes
  import A = AclPackets
  import F = Frames
  import S = Signalling

  /** A word as it stands on the wire. */
  function W(v: int): seq<Byte> {
    [v % 256, (v / 256) % 256]
  }

  lemma WordBytes(v: Uint16)
    ensures LE16(v) == W(v)
  {
  }

  lemma WordsStep(w: Uint16, ws: seq<Uint16>)
    ensures S.Words([w] + ws) == W(w) + S.Words(ws)
  {
    WordBytes(w);
    assert ([w] + ws)[0] == w && ([w] + ws)[1..] == ws;
  }

  lemma WordsOfOne(a: Uint16)
    ensures S.Words([a]) == W(a)
  {
    WordsStep(a, []);
    assert [a] + [] == [a] && S.Words([]) == [] && W(a) + [] == W(a);
  }

  lemma WordsOfTwo(a: Uint16, b: Uint16)
    ensures S.Words([a, b]) == W(a) + W(b)
  {
    WordsStep(a, [b]);
    WordsOfOne(b);
    assert [a] + [b] == [a, b];
  }

  lemma WordsOfFour(a: Uint16, b: Uint16, c: Uint16, d: Uint16)
    ensures S.Words([a, b, c, d]) == W(a) + (W(b) + (W(c) + W(d)))
  {
    WordsOfTwo(c, d);
    WordsStep(b, [c, d]);
    WordsStep(a, [b, c, d]);
    assert [b] + [c, d] == [b, c, d] && [a] + [b, c, d] == [a, b, c, d];
  }

  // ------------------------------------------------------------------ frames

  /** A basic frame is its payload behind its length and its channel; a group frame counts the two bytes of its PSM and
      is addressed to channel 2. */
  lemma FrameBytes(cid: Uint16, psm: Uint16, payload: seq<Byte>)
    ensures F.Marshal(F.BFrame(cid, payload)) ==
              if |payload| > 65535 then Err(PayloadTooLarge) else Ok(W(|payload|) + W(cid) + payload)
    ensures F.Marshal(F.GFrame(psm, payload)) ==
              if |payload| > 65533 then Err(PayloadTooLarge) else Ok(W(|payload| + 2) + W(2) + W(psm) + payload)
  {
  }

  /** A frame is read if its length is true in sixteen bits, which for group frames means two less than what Marshal
      writes. */
  lemma FramesRead(buf: seq<Byte>)
    ensures |buf| < 4 ==> F.UnmarshalFrame(buf) == Err(ShortBuffer)
    ensures |buf| >= 4 && Get16(buf, 2) != 2 ==>
              F.UnmarshalFrame(buf) ==
                if Get16(buf, 0) as int == (|buf| - 4) % 65536 then Ok(F.BFrame(Get16(buf, 2), buf[4..]))
                else Err(ShortBuffer)
    ensures |buf| >= 4 && Get16(buf, 2) == 2 ==>
              F.UnmarshalFrame(buf) ==
                if |buf| >= 6 && Get16(buf, 0) as int == (|buf| - 6) % 65536 then Ok(F.GFrame(Get16(buf, 4), buf[6..]))
                else Err(ShortBuffer)
  {
  }

  // ------------------------------------------------------------------ ACL packets

  /** Two flags of two bits share a word with the handle. */
  lemma AclBytes(p: A.AclPacket)
    requires p.boundary < 4 && p.broadcast < 4 && p.handle < 4096
    ensures A.Marshal(p) == [2] + W(p.handle + 4096 * p.boundary + 16384 * p.broadcast) + W(|p.payload|) + p.payload
  {
    A.HeaderFields(p);
    WordBytes(A.HeaderWord(p));
    LengthBytes(|p.payload|);
  }

  /** A data packet is read if its length is true and does not wrap with the header's five bytes. */
  lemma AclRead(buf: seq<Byte>)
    ensures A.Unmarshal(buf).Ok? <==>
              |buf| >= 5 && buf[0] == 2 && Get16(buf, 3) as int + 5 == |buf| && |buf| <= 65535
    ensures A.Unmarshal(buf).Ok? ==>
              var p := A.Unmarshal(buf).value;
              && p.payload == buf[5..] && p.boundary < 4 && p.broadcast < 4 && p.handle < 4096
              && Get16(buf, 1) as int == p.handle + 4096 * p.boundary + 16384 * p.broadcast
    ensures A.Unmarshal(buf).Err? ==>
              A.Unmarshal(buf).error ==
                if |buf| == 0 then ShortBuffer
                else if buf[0] != 2 then IncorrectPacket
                else if |buf| < 5 then IndexOutOfRange
                else ShortBuffer
  {
    if A.Unmarshal(buf).Ok? {
      A.SplitWord(Get16(buf, 1));
    }
  }

  // ------------------------------------------------------------------ signalling packets

  /** The bytes of every signalling packet. */
  predicate HasBytes(p: S.SignallingPacket) {
    S.Marshal(p) ==
      match p
      case CommandReject(id, reason, data) => Ok([0x01, id] + W(|data| + 2) + W(reason) + data)
      case ConnectionRequest(id, psm, scid) => Ok([0x02, id, 4, 0] + W(psm) + W(scid))
      case ConnectionResponse(id, dcid, scid, result, status) =>
        Ok([0x03, id, 8, 0] + W(dcid) + W(scid) + W(result) + W(status))
      case DisconnectionRequest(id, dcid, scid) => Ok([0x06, id, 4, 0] + W(dcid) + W(scid))
      case DisconnectionResponse(id, dcid, scid) => Ok([0x07, id, 4, 0] + W(dcid) + W(scid))
      case EchoRequest(id, data) => Ok([0x08, id] + data)
      case EchoResponse(id, data) => Ok([0x09, id] + data)
      case InformationRequest(_, _) => Err(IndexOutOfRange)
      case InformationResponse(id, infoType, result, data) =>
        Ok([0x0B, id] + W(|data| + 4) + W(infoType) + W(result) + data)
      case ConnectionParameterUpdateRequest(id, min, max, latency, timeout) =>
        Ok([0x12, id, 8, 0] + W(min) + W(max) + W(latency) + W(timeout))
      case ConnectionParameterUpdateResponse(id, result) => Ok([0x13, id, 2, 0] + W(result))
      case LEConnectionRequest(id, spsm, scid, mtu, mps, credits) =>
        Ok([0x14, id, 10, 0] + W(spsm) + W(scid) + W(mtu) + W(mps) + W(credits))
      case LEConnectionResponse(id, dcid, mtu, mps, credits, result) =>
        Ok([0x15, id, 10, 0] + W(dcid) + W(mtu) + W(mps) + W(credits) + W(result))
      case CreditIndication(id, cid, credits) => Ok([0x16, id, 4, 0] + W(cid) + W(credits))
      case CreditConnectionRequest(id, spsm, mtu, mps, credits, cids) =>
        Ok([0x17, id] + W(2 * |cids| + 10) + W(spsm) + W(mtu) + W(mps) + W(credits) + S.Words(cids))
      case CreditConnectionResponse(id, mtu, mps, credits, result, cids) =>
        Ok([0x18, id] + W(2 * |cids| + 8) + W(mtu) + W(mps) + W(credits) + W(result) + S.Words(cids))
  }

  /** The length is written in sixteen bits. */
  lemma LengthBytes(n: nat)
    ensures LE16(Wrap16(n)) == W(n)
  {
    var q, r := n / 0x1_0000, n % 0x1_0000;
    assert n == 256 * (256 * q + r / 256) + r % 256;
    DivMod(n, 256 * q + r / 256, r % 256);
    DivMod(256 * q + r / 256, q, r / 256);
  }

  lemma DivMod(n: int, q: int, r: int)
    requires n == 256 * q + r && 0 <= r < 256
    ensures n / 256 == q && n % 256 == r
  {
  }

  lemma LayoutOne(op: Byte, id: Byte, n: Uint16, a: Uint16, data: seq<Byte>)
    ensures S.Layout(op, id, n, [a], data) == [op, id] + W(n) + W(a) + data
  {
    WordBytes(n);
    WordsOfOne(a);
  }

  lemma LayoutTwo(op: Byte, id: Byte, n: Uint16, a: Uint16, b: Uint16, data: seq<Byte>)
    ensures S.Layout(op, id, n, [a, b], data) == [op, id] + W(n) + W(a) + W(b) + data
  {
    WordBytes(n);
    WordsOfTwo(a, b);
    Associate([op, id] + W(n), W(a), W(b));
  }

  /** Four words in a row, however bracketed. */
  lemma InARow(x: seq<Byte>, a: seq<Byte>, b: seq<Byte>, c: seq<Byte>, d: seq<Byte>)
    ensures x + (a + (b + (c + d))) == x + a + b + c + d
  {
    Associate(x, a, b + (c + d));
    Associate(x + a, b, c + d);
    Associate(x + a + b, c, d);
  }

  lemma LayoutFour(op: Byte, id: Byte, n: Uint16, a: Uint16, b: Uint16, c: Uint16, d: Uint16, data: seq<Byte>)
    ensures S.Layout(op, id, n, [a, b, c, d], data) == [op, id] + W(n) + W(a) + W(b) + W(c) + W(d) + data
  {
    WordBytes(n);
    WordsOfFour(a, b, c, d);
    InARow([op, id] + W(n), W(a), W(b), W(c), W(d));
  }

  lemma LayoutFive(op: Byte, id: Byte, n: Uint16, a: Uint16, b: Uint16, c: Uint16, d: Uint16, e: Uint16)
    ensures S.Layout(op, id, n, [a, b, c, d, e], []) == [op, id] + W(n) + W(a) + W(b) + W(c) + W(d) + W(e)
  {
    WordBytes(n);
    WordsOfFour(b, c, d, e);
    WordsStep(a, [b, c, d, e]);
    assert [a] + [b, c, d, e] == [a, b, c, d, e];
    Associate([op, id] + W(n), W(a), W(b) + (W(c) + (W(d) + W(e))));
    InARow([op, id] + W(n) + W(a), W(b), W(c), W(d), W(e));
    NothingBehind([op, id] + W(n) + W(a) + W(b) + W(c) + W(d) + W(e));
  }

  lemma NothingBehind(s: seq<Byte>)
    ensures s + [] == s
  {
  }

  /** The header of a packet without a tail. */
  lemma FixedHeader(op: Byte, id: Byte, n: Byte)
    ensures [op, id] + W(n) == [op, id, n, 0]
  {
  }

  lemma DataBytes(p: S.SignallingPacket)
    requires p.CommandReject? || p.InformationResponse?
    ensures HasBytes(p)
  {
    var n := |p.data| + if p.CommandReject? then 2 else 4;
    LengthBytes(n);
    WordBytes(Wrap16(n));
    match p {
      case CommandReject(id, reason, data) => LayoutOne(0x01, id, Wrap16(n), reason, data);
      case InformationResponse(id, infoType, result, data) => LayoutTwo(0x0B, id, Wrap16(n), infoType, result, data);
    }
  }

  lemma TwoWordBytes(p: S.SignallingPacket)
    requires p.ConnectionRequest? || p.DisconnectionRequest? || p.DisconnectionResponse? || p.CreditIndication?
    ensures HasBytes(p)
  {
    match p {
      case ConnectionRequest(id, psm, scid) => TwoWords(0x02, id, psm, scid);
      case DisconnectionRequest(id, dcid, scid) => TwoWords(0x06, id, dcid, scid);
      case DisconnectionResponse(id, dcid, scid) => TwoWords(0x07, id, dcid, scid);
      case CreditIndication(id, cid, credits) => TwoWords(0x16, id, cid, credits);
    }
  }

  lemma ShortPacketBytes(p: S.SignallingPacket)
    requires p.EchoRequest? || p.EchoResponse? || p.InformationRequest? || p.ConnectionParameterUpdateResponse?
    ensures HasBytes(p)
  {
    if p.ConnectionParameterUpdateResponse? {
      LayoutOne(0x13, p.id, 2, p.result, []);
      FixedHeader(0x13, p.id, 2);
      NothingBehind([0x13, p.id, 2, 0] + W(p.result));
    }
  }

  lemma TwoWords(op: Byte, id: Byte, a: Uint16, b: Uint16)
    ensures S.Layout(op, id, 4, [a, b], []) == [op, id, 4, 0] + W(a) + W(b)
  {
    LayoutTwo(op, id, 4, a, b, []);
    FixedHeader(op, id, 4);
    NothingBehind([op, id, 4, 0] + W(a) + W(b));
  }

  lemma FourWords(op: Byte, id: Byte, a: Uint16, b: Uint16, c: Uint16, d: Uint16)
    ensures S.Layout(op, id, 8, [a, b, c, d], []) == [op, id, 8, 0] + W(a) + W(b) + W(c) + W(d)
  {
    LayoutFour(op, id, 8, a, b, c, d, []);
    FixedHeader(op, id, 8);
    NothingBehind([op, id, 8, 0] + W(a) + W(b) + W(c) + W(d));
  }

  lemma LEConnectionBytes(p: S.SignallingPacket)
    requires p.LEConnectionRequest? || p.LEConnectionResponse?
    ensures HasBytes(p)
  {
    match p {
      case LEConnectionRequest(id, spsm, scid, mtu, mps, credits) =>
        LayoutFive(0x14, id, 10, spsm, scid, mtu, mps, credits);
        FixedHeader(0x14, id, 10);
      case LEConnectionResponse(id, dcid, mtu, mps, credits, result) =>
        LayoutFive(0x15, id, 10, dcid, mtu, mps, credits, result);
        FixedHeader(0x15, id, 10);
    }
  }

  lemma FourWordBytes(p: S.SignallingPacket)
    requires p.ConnectionResponse? || p.ConnectionParameterUpdateRequest?
    ensures HasBytes(p)
  {
    match p {
      case ConnectionResponse(id, dcid, scid, result, status) =>
        FourWords(0x03, id, dcid, scid, result, status);
      case ConnectionParameterUpdateRequest(id, min, max, latency, timeout) =>
        FourWords(0x12, id, min, max, latency, timeout);
    }
  }

  lemma CreditConnectionBytes(p: S.SignallingPacket)
    requires p.CreditConnectionRequest? || p.CreditConnectionResponse?
    ensures HasBytes(p)
  {
    var n := 2 * |p.cids| + if p.CreditConnectionRequest? then 10 else 8;
    LengthBytes(n);
    WordBytes(Wrap16(n));
    match p {
      case CreditConnectionRequest(id, spsm, mtu, mps, credits, cids) =>
        LayoutFour(0x17, id, Wrap16(n), spsm, mtu, mps, credits, S.Words(cids));
      case CreditConnectionResponse(id, mtu, mps, credits, result, cids) =>
        LayoutFour(0x18, id, Wrap16(n), mtu, mps, credits, result, S.Words(cids));
    }
  }

  lemma SignallingBytes(p: S.SignallingPacket)
    ensures HasBytes(p)
  {
    if p.LEConnectionRequest? || p.LEConnectionResponse? {
      LEConnectionBytes(p);
    } else if p.ConnectionResponse? || p.ConnectionParameterUpdateRequest? {
      FourWordBytes(p);
    } else if p.CreditConnectionRequest? || p.CreditConnectionResponse? {
      CreditConnectionBytes(p);
    } else if p.CommandReject? || p.InformationResponse? {
      DataBytes(p);
    } else if p.ConnectionRequest? || p.DisconnectionRequest? || p.DisconnectionResponse? || p.CreditIndication? {
      TwoWordBytes(p);
    } else {
      ShortPacketBytes(p);
    }
  }

  /** The size of the packets that have only one. */
  const SIZES: map<int, int> := map[
    0x02 := 8, 0x03 := 12, 0x06 := 8, 0x07 := 8, 0x12 := 12, 0x13 := 6, 0x14 := 14, 0x15 := 14, 0x16 := 8]

  /** The length field says what follows the header, in sixteen bits. */
  predicate TrueLength(buf: seq<Byte>)
    requires |buf| >= 4
  {
    Get16(buf, 2) as int == (|buf| - 4) % 65536
  }

  datatype Verdict = Read | Refused(error: Error)

  /** What becomes of a buffer. */
  function Judge(buf: seq<Byte>): Verdict {
    if |buf| < 1 then Refused(ShortBuffer)
    else if buf[0] in {0x04, 0x05, 0x19, 0x1A} then Refused(NotImplemented)
    else if buf[0] as int in SIZES then
      var size := SIZES[buf[0] as int];
      if |buf| < size then Refused(ShortBuffer)
      else if |buf| >= 4 && Get16(buf, 2) as int != size - 4 then Refused(InvalidLength)
      else Read
    else if buf[0] == 0x01 then
      if |buf| >= 6 && Get16(buf, 2) as int == |buf| - 4 then Read else Refused(ShortBuffer)
    else if buf[0] in {0x08, 0x09} then
      if |buf| < 2 then Refused(ShortBuffer)
      else if |buf| < 4 then Refused(IndexOutOfRange)
      else if Get16(buf, 2) as int == (|buf| - 2) % 65536 then Read
      else Refused(InvalidLength)
    else if buf[0] == 0x0A then
      if |buf| < 4 then Refused(ShortBuffer)
      else if Get16(buf, 2) != 2 then Refused(InvalidLength)
      else if |buf| < 6 then Refused(IndexOutOfRange)
      else Read
    else if buf[0] == 0x0B then
      if |buf| < 8 then Refused(ShortBuffer) else if TrueLength(buf) then Read else Refused(InvalidLength)
    else if buf[0] in {0x17, 0x18} then
      if |buf| < 12 then Refused(ShortBuffer) else if TrueLength(buf) then Read else Refused(InvalidLength)
    else Refused(InvalidOpcode)
  }

  /** Exactly what the dispatcher accepts, and the error for everything else. */
  lemma SignallingJudged(buf: seq<Byte>)
    ensures S.Unmarshal(buf).Ok? <==> Judge(buf).Read?
    ensures S.Unmarshal(buf).Err? ==> Judge(buf) == Refused(S.Unmarshal(buf).error)
  {
  }

  /** What it reads of a packet whose size varies: the type by the first byte, the identifier in the second, and from
      the fifth on the words and the data of that type. */
  lemma VariableRead(buf: seq<Byte>)
    requires S.Unmarshal(buf).Ok? && buf[0] in {0x01, 0x08, 0x09, 0x0A, 0x0B}
    ensures S.Unmarshal(buf).value ==
              match buf[0]
              case 0x01 => S.CommandReject(buf[1], Get16(buf, 4), buf[6..])
              case 0x08 => S.EchoRequest(buf[1], buf[2..])
              case 0x09 => S.EchoResponse(buf[1], buf[2..])
              case 0x0A => S.InformationRequest(buf[1], Get16(buf, 4))
              case _ => S.InformationResponse(buf[1], Get16(buf, 4), Get16(buf, 6), buf[8..])
  {
  }

  /** Of one with a list of identifiers. */
  lemma CidListRead(buf: seq<Byte>)
    requires S.Unmarshal(buf).Ok? && buf[0] in {0x17, 0x18}
    ensures |buf| >= 12
    ensures var ws := [Get16(buf, 4), Get16(buf, 6), Get16(buf, 8), Get16(buf, 10)];
            var cids := S.WordsAt(buf, 12, (|buf| - 12) / 2);
            S.Unmarshal(buf).value ==
              if buf[0] == 0x17 then S.CreditConnectionRequest(buf[1], ws[0], ws[1], ws[2], ws[3], cids)
              else S.CreditConnectionResponse(buf[1], ws[0], ws[1], ws[2], ws[3], cids)
  {
    if buf[0] == 0x17 {
      CidRequestRead(buf);
    } else {
      CidResponseRead(buf);
    }
  }

  lemma CidRequestRead(buf: seq<Byte>)
    requires S.Unmarshal(buf).Ok? && buf[0] == 0x17
    ensures |buf| >= 12
    ensures S.Unmarshal(buf).value == S.CreditConnectionRequest(buf[1], Get16(buf, 4), Get16(buf, 6), Get16(buf, 8),
                                                                Get16(buf, 10), S.WordsAt(buf, 12, (|buf| - 12) / 2))
  {
  }

  lemma CidResponseRead(buf: seq<Byte>)
    requires S.Unmarshal(buf).Ok? && buf[0] == 0x18
    ensures |buf| >= 12
    ensures S.Unmarshal(buf).value == S.CreditConnectionResponse(buf[1], Get16(buf, 4), Get16(buf, 6), Get16(buf, 8),
                                                                 Get16(buf, 10), S.WordsAt(buf, 12, (|buf| - 12) / 2))
  {
  }

  /** And of one that has only one size, whatever is behind it. */
  lemma FixedRead(buf: seq<Byte>)
    requires S.Unmarshal(buf).Ok? && buf[0] as int in SIZES
    ensures var p := S.Unmarshal(buf).value;
            && S.FixedSize(p) && S.Opcode(p) == buf[0] && p.id == buf[1]
            && 4 + 2 * |S.Fields(p)| <= |buf|
            && forall i :: 0 <= i < |S.Fields(p)| ==> S.Fields(p)[i] == Get16(buf, 4 + 2 * i)
  {
    S.FixedFields(buf);
  }
}
