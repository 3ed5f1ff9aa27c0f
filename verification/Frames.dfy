/** L2CAP B-frames and G-frames. Vol 3 Part A sections 3.1 and 3.2. */
module Frames {
  import opened Bytes

  const CID_CONNECTIONLESS: Uint16 := 0x0002
  const CID_ATTRIBUTE_PROTOCOL: Uint16 := 0x0004
  const CID_SIGNALLING_LEU: Uint16 := 0x0005
  const CID_FIRST_DYNAMIC: Uint16 := 0x0040

  datatype Frame =
    | BFrame(channelID: Uint16, payload: seq<Byte>)
    | GFrame(psm: Uint16, payload: seq<Byte>)

  /** Marshal: a B-frame carries up to 65535 bytes, a G-frame two fewer. */
  function Marshal(f: Frame): Result<seq<Byte>> {
    match f
    case BFrame(cid, payload) =>
      if |payload| > 0xFFFF then Err(PayloadTooLarge)
      else Ok(LE16(|payload|) + LE16(cid) + payload)
    case GFrame(psm, payload) =>
      if |payload| > 0xFFFF - 2 then Err(PayloadTooLarge)
      else Ok(LE16(|payload| + 2) + LE16(CID_CONNECTIONLESS) + LE16(psm) + payload)
  }

  function UnmarshalB(buf: seq<Byte>): Result<Frame> {
    if |buf| < 4 || Wrap16(|buf| - 4) != Get16(buf, 0) then Err(ShortBuffer)
    else Ok(BFrame(Get16(buf, 2), buf[4..]))
  }

  function UnmarshalG(buf: seq<Byte>): Result<Frame> {
    if |buf| < 6 then Err(ShortBuffer)
    else if Wrap16(|buf| - 6) != Get16(buf, 0) then Err(ShortBuffer)
    else if Get16(buf, 2) != CID_CONNECTIONLESS then Err(IncorrectChannel)
    else Ok(GFrame(Get16(buf, 4), buf[6..]))
  }

  /** UnmarshalFrame: the channel identifier alone decides the kind of frame. */
  function UnmarshalFrame(buf: seq<Byte>): Result<Frame> {
    if |buf| < 4 then Err(ShortBuffer)
    else if Get16(buf, 2) == CID_CONNECTIONLESS then UnmarshalG(buf)
    else UnmarshalB(buf)
  }

  /** Marshal for a B-frame, in place: header bytes written, then the payload copied behind them. */
  method MarshalBFrame(cid: Uint16, payload: seq<Byte>) returns (r: Result<seq<Byte>>)
    ensures r == Marshal(BFrame(cid, payload))
  {
    if |payload| > 0xFFFF {
      return Err(PayloadTooLarge);
    }
    var buf := new Byte[4 + |payload|];
    Put16(buf, 0, |payload|);
    Put16(buf, 2, cid);
    CopyAt(buf, 4, payload);
    assert buf[..] == LE16(|payload|) + LE16(cid) + payload;
    r := Ok(buf[..]);
  }

  /** When a frame survives the trip through UnmarshalFrame: a B-frame that fits and is not addressed to the
      connectionless channel. No G-frame does, because the two halves count its length differently. */
  predicate SurvivesRoundTrip(f: Frame) {
    f.BFrame? && |f.payload| <= 0xFFFF && f.channelID != CID_CONNECTIONLESS
  }

  lemma HeaderBytes(a: Uint16, b: Uint16, tail: seq<Byte>)
    ensures var buf := LE16(a) + LE16(b) + tail;
            |buf| == 4 + |tail| && Get16(buf, 0) == a && Get16(buf, 2) == b && buf[4..] == tail
  {
  }

  lemma FrameRoundTrip(f: Frame)
    requires Marshal(f).Ok?
    ensures UnmarshalFrame(Marshal(f).value) == Ok(f) <==> SurvivesRoundTrip(f)
  {
    match f
    case BFrame(cid, payload) =>
      HeaderBytes(|payload|, cid, payload);
    case GFrame(psm, payload) =>
      HeaderBytes(|payload| + 2, CID_CONNECTIONLESS, LE16(psm) + payload);
      assert LE16(|payload| + 2) + LE16(CID_CONNECTIONLESS) + LE16(psm) + payload
          == LE16(|payload| + 2) + LE16(CID_CONNECTIONLESS) + (LE16(psm) + payload);
  }

  /** A PDU whose length header tells the truth. */
  predicate SelfDelimiting(pdu: seq<Byte>) {
    |pdu| >= 4 && |pdu| == Get16(pdu, 0) + 4
  }

  /** Conversely, what UnmarshalFrame accepts as a B-frame of at most 65539 bytes is exactly what Marshal writes. */
  lemma AcceptedFrameIsMarshalled(buf: seq<Byte>)
    requires |buf| <= 0xFFFF + 4
    requires UnmarshalFrame(buf).Ok? && UnmarshalFrame(buf).value.BFrame?
    ensures Marshal(UnmarshalFrame(buf).value) == Ok(buf)
    ensures SelfDelimiting(buf)
  {
    assert buf == LE16(Get16(buf, 0)) + LE16(Get16(buf, 2)) + buf[4..];
  }

  lemma MarshalledIsSelfDelimiting(f: Frame)
    requires f.BFrame? && Marshal(f).Ok?
    ensures SelfDelimiting(Marshal(f).value)
  {
    HeaderBytes(|f.payload|, f.channelID, f.payload);
  }

  /** Cuts a byte string at its own length headers; what does not make a whole frame is returned as it is. */
  function Split(stream: seq<Byte>): (seq<seq<Byte>>, seq<Byte>)
    decreases |stream|
  {
    if |stream| < 4 || |stream| < Get16(stream, 0) + 4 then ([], stream)
    else
      var n := Get16(stream, 0) + 4;
      var (rest, tail) := Split(stream[n..]);
      ([stream[..n]] + rest, tail)
  }

  /** Frames delimit themselves: a concatenation of frames splits into those frames and no others. */
  lemma {:induction false} SplitConcat(pdus: seq<seq<Byte>>)
    requires forall i :: 0 <= i < |pdus| ==> SelfDelimiting(pdus[i])
    ensures Split(Concat(pdus)) == (pdus, [])
    decreases |pdus|
  {
    var stream := Concat(pdus);
    if pdus == [] {
      assert stream == [];
    } else {
      assert stream[..4] == pdus[0][..4];
      assert Get16(stream, 0) == Get16(stream[..4], 0) == Get16(pdus[0][..4], 0) == Get16(pdus[0], 0);
      assert stream[..|pdus[0]|] == pdus[0];
      assert stream[|pdus[0]|..] == Concat(pdus[1..]);
      SplitConcat(pdus[1..]);
      assert [pdus[0]] + pdus[1..] == pdus;
    }
  }

  /** Hence a concatenation has one decoding. */
  lemma {:induction false} UniqueDecoding(a: seq<seq<Byte>>, b: seq<seq<Byte>>)
    requires forall i :: 0 <= i < |a| ==> SelfDelimiting(a[i])
    requires forall i :: 0 <= i < |b| ==> SelfDelimiting(b[i])
    ensures Concat(a) == Concat(b) <==> a == b
  {
    SplitConcat(a);
    SplitConcat(b);
  }
}
