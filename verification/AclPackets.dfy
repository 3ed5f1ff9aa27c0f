/** HCI ACL data packets. Vol 4 Part E section 5.4.2. */
module AclPackets {
  import opened Bytes

  const PACKET_TYPE_ACL_DATA: Byte := 0x02

  datatype AclPacket = AclPacket(boundary: Byte, broadcast: Byte, handle: Uint16, payload: seq<Byte>)

  /** Bitwise or of natural numbers, bit by bit. */
  function Or(a: nat, b: nat): nat {
    if a == 0 && b == 0 then 0
    else (if a % 2 == 1 || b % 2 == 1 then 1 else 0) + 2 * Or(a / 2, b / 2)
  }

  lemma {:induction false} OrZero(b: nat)
    ensures Or(0, b) == b
    decreases b
  {
    if b > 0 {
      OrZero(b / 2);
    }
  }

  /** Where the low part and the shifted part do not overlap, or is addition. */
  lemma {:induction false} OrDisjoint(a: nat, b: nat, k: nat)
    requires a < Pow2(k)
    ensures Or(a, b * Pow2(k)) == a + b * Pow2(k)
    decreases k
  {
    if k == 0 {
      OrZero(b);
    } else {
      var half := b * Pow2(k - 1);
      assert b * Pow2(k) == 2 * half;
      OrDisjoint(a / 2, b, k - 1);
      if a != 0 || half != 0 {
        assert Or(a, 2 * half) == a % 2 + 2 * Or(a / 2, half);
      }
    }
  }

  lemma {:induction false} OrBelow(a: nat, b: nat, k: nat)
    requires a < Pow2(k) && b < Pow2(k)
    ensures Or(a, b) < Pow2(k)
    decreases k
  {
    if k > 0 {
      OrBelow(a / 2, b / 2, k - 1);
    }
  }

  /** uint16(b) << 12 and uint16(b) << 14: bits shifted past the sixteenth are lost. */
  function Shift12(b: Byte): Uint16 { Wrap16(b * 0x1000) }

  function Shift14(b: Byte): Uint16 { Wrap16(b * 0x4000) }

  /** The handle and flags in one word; an oversized handle spills into the flags. */
  function HeaderWord(p: AclPacket): (w: Uint16) {
    Pow2Values();
    OrBelow(p.handle, Shift12(p.boundary), 16);
    OrBelow(Or(p.handle, Shift12(p.boundary)), Shift14(p.broadcast), 16);
    Or(Or(p.handle, Shift12(p.boundary)), Shift14(p.broadcast))
  }

  /** ACLDataPacket.Marshal: the payload length is truncated to sixteen bits. */
  function Marshal(p: AclPacket): seq<Byte> {
    [PACKET_TYPE_ACL_DATA] + LE16(HeaderWord(p)) + LE16(Wrap16(|p.payload|)) + p.payload
  }

  /** Unmarshal of a packet already known not to be a command or an event. The sum of length and header size is taken
      in sixteen bits. */
  function Unmarshal(buf: seq<Byte>): Result<AclPacket> {
    if |buf| == 0 then Err(ShortBuffer)
    else if buf[0] != PACKET_TYPE_ACL_DATA then Err(IncorrectPacket)
    else if |buf| < 5 then Err(IndexOutOfRange)
    else
      var b, s := Get16(buf, 1), Get16(buf, 3);
      if |buf| != Wrap16(s + 5) then Err(ShortBuffer)
      else Ok(AclPacket((b / 0x1000) % 4, (b / 0x4000) % 4, b % 0x1000, buf[5..]))
  }

  /** The packets the wire format can carry: a 12-bit handle, two 2-bit flags, and a payload short enough that the
      receiver's sixteen-bit sum does not wrap. */
  predicate Encodable(p: AclPacket) {
    p.boundary < 4 && p.broadcast < 4 && p.handle < 0x1000 && |p.payload| <= 0xFFFF - 5
  }

  lemma HeaderFields(p: AclPacket)
    requires p.boundary < 4 && p.broadcast < 4 && p.handle < 0x1000
    ensures HeaderWord(p) as int == p.handle + p.boundary * 0x1000 + p.broadcast * 0x4000
  {
    ShiftsFit(p.boundary, p.broadcast);
    OrAtTwelve(p.handle, p.boundary);
    OrAtFourteen(p.handle + p.boundary * 0x1000, p.broadcast);
  }

  lemma ShiftsFit(b: Byte, c: Byte)
    requires b < 4 && c < 4
    ensures Shift12(b) as int == b * 0x1000 && Shift14(c) as int == c * 0x4000
  {
  }

  lemma OrAtTwelve(a: nat, b: nat)
    requires a < 0x1000
    ensures Or(a, b * 0x1000) == a + b * 0x1000
  {
    Pow2Values();
    OrDisjoint(a, b, 12);
  }

  lemma OrAtFourteen(a: nat, b: nat)
    requires a < 0x4000
    ensures Or(a, b * 0x4000) == a + b * 0x4000
  {
    Pow2Values();
    OrDisjoint(a, b, 14);
  }

  lemma FieldsBack(h: nat, b: nat, c: nat)
    requires h < 0x1000 && b < 4 && c < 4
    ensures var w := h + b * 0x1000 + c * 0x4000;
            w % 0x1000 == h && (w / 0x1000) % 4 == b && (w / 0x4000) % 4 == c
  {
  }

  lemma SplitWord(w: Uint16)
    ensures w as int == w % 0x1000 + ((w / 0x1000) % 4) * 0x1000 + ((w / 0x4000) % 4) * 0x4000
  {
  }

  lemma MarshalReads(p: AclPacket)
    ensures var buf := Marshal(p);
            && |buf| == 5 + |p.payload| && buf[0] == PACKET_TYPE_ACL_DATA
            && Get16(buf, 1) == HeaderWord(p) && Get16(buf, 3) == Wrap16(|p.payload|) && buf[5..] == p.payload
  {
  }

  lemma EncodableSurvives(p: AclPacket)
    requires Encodable(p)
    ensures Unmarshal(Marshal(p)) == Ok(p)
  {
    MarshalReads(p);
    HeaderFields(p);
    FieldsBack(p.handle, p.boundary, p.broadcast);
    LengthShows(|p.payload|);
  }

  /** Whatever is read has fields within their widths, and a length that did not wrap. */
  lemma OnlyEncodableSurvives(p: AclPacket)
    requires Unmarshal(Marshal(p)) == Ok(p)
    ensures Encodable(p)
  {
    MarshalReads(p);
    LengthShows(|p.payload|);
    WordFields(Get16(Marshal(p), 1));
  }

  /** The ACL round trip holds for exactly the encodable packets. */
  lemma AclRoundTrip(p: AclPacket)
    ensures Unmarshal(Marshal(p)) == Ok(p) <==> Encodable(p)
  {
    if Encodable(p) {
      EncodableSurvives(p);
    } else if Unmarshal(Marshal(p)) == Ok(p) {
      OnlyEncodableSurvives(p);
    }
  }

  /** The length is read back as it was exactly while the receiver's sum does not wrap. */
  lemma LengthShows(n: nat)
    ensures 5 + n == Wrap16(Wrap16(n) + 5) <==> n <= 0xFFFF - 5
  {
  }

  lemma WordFields(w: Uint16)
    ensures (w / 0x1000) % 4 < 4 && (w / 0x4000) % 4 < 4 && w % 0x1000 < 0x1000
  {
  }

  /** Conversely, an accepted buffer is what Marshal writes for the packet read from it. */
  lemma AcceptedAclIsMarshalled(buf: seq<Byte>)
    requires Unmarshal(buf).Ok?
    ensures Encodable(Unmarshal(buf).value) && Marshal(Unmarshal(buf).value) == buf
  {
    var p := Unmarshal(buf).value;
    HeaderFields(p);
    SplitWord(Get16(buf, 1));
    assert HeaderWord(p) == Get16(buf, 1);
    assert Wrap16(|p.payload|) == Get16(buf, 3);
    LE16OfGet16(buf, 1);
    LE16OfGet16(buf, 3);
    assert buf == [buf[0]] + buf[1..3] + buf[3..5] + buf[5..];
  }

  /** ACLDataPacket.Marshal, in place. */
  method MarshalInPlace(p: AclPacket) returns (buf: seq<Byte>)
    ensures buf == Marshal(p)
  {
    var b := new Byte[5];
    b[0] := PACKET_TYPE_ACL_DATA;
    Put16(b, 1, HeaderWord(p));
    Put16(b, 3, Wrap16(|p.payload|));
    assert b[..] == [PACKET_TYPE_ACL_DATA] + LE16(HeaderWord(p)) + LE16(Wrap16(|p.payload|));
    buf := b[..] + p.payload;
  }
}
