/** What the adapter reads from its controller: which bytes reach the buffer ledger, and which end the reading.
    Vol 4 Part E sections 7.7.5 and 7.7.19 of the Bluetooth Core Specification 5.3. */
module HciEvents {
  import opened Bytes
  import opened AclPackets
  import opened AclCredits
  import opened Sums

  const PACKET_TYPE_COMMAND: Byte := 0x01
  const PACKET_TYPE_EVENT: Byte := 0x04
  const DISCONNECTION_COMPLETE: Byte := 0x05
  const COMMAND_COMPLETE: Byte := 0x0E
  const NUMBER_OF_COMPLETED_PACKETS: Byte := 0x13
  const LE_META: Byte := 0x3E
  const LE_CONNECTION_COMPLETE: Byte := 0x01

  datatype HciPacket = AclData(packet: AclPacket) | Counted(event: Event) | OtherEvent

  /** A word at i. The bytes behind the packet in the freshly made read buffer are zero, and slices reach them. */
  function Word(buf: seq<Byte>, i: nat): Uint16 {
    var lo: int, hi: int := if i < |buf| then buf[i] else 0, if i + 1 < |buf| then buf[i + 1] else 0;
    lo + 0x100 * hi
  }

  /** The handles come first, then the counts. */
  function Counts(buf: seq<Byte>, n: nat, i: nat): seq<(Uint16, Uint16)>
    decreases n - i
  {
    if i >= n then [] else [(Word(buf, 4 + 2 * i), Word(buf, 4 + 2 * (n + i)))] + Counts(buf, n, i + 1)
  }

  lemma CountsStep(buf: seq<Byte>, n: nat, i: nat, counts: seq<(Uint16, Uint16)>, count: (Uint16, Uint16))
    requires i < n && count == (Word(buf, 4 + 2 * i), Word(buf, 4 + 2 * (n + i)))
    ensures counts + Counts(buf, n, i) == (counts + [count]) + Counts(buf, n, i + 1)
  {
    AppendOne(counts, count, Counts(buf, n, i + 1));
  }

  /** The loop of NumberOfCompletedPacketsEventPacket.Unmarshal. */
  method ReadCounts(buf: seq<Byte>, n: nat) returns (counts: seq<(Uint16, Uint16)>)
    ensures counts == Counts(buf, n, 0)
  {
    counts := [];
    var i := 0;
    while i < n
      invariant 0 <= i <= n
      invariant counts + Counts(buf, n, i) == Counts(buf, n, 0)
    {
      var count := (Word(buf, 4 + 2 * i), Word(buf, 4 + 2 * (n + i)));
      CountsStep(buf, n, i, counts, count);
      counts := counts + [count];
      i := i + 1;
    }
    assert counts + [] == counts;
  }

  /** The two events the ledger follows, and those that do not matter to it. The event's own length byte has been
      checked, in eight bits. */
  function UnmarshalEvent(buf: seq<Byte>): Result<HciPacket>
    requires |buf| >= 3 && |buf| == (buf[2] as int + 3) % 0x100
  {
    if buf[1] == COMMAND_COMPLETE then
      if |buf| < 6 then Err(IndexOutOfRange) else Ok(OtherEvent)
    else if buf[1] == LE_META then
      if |buf| < 4 then Err(IndexOutOfRange)
      else if buf[3] != LE_CONNECTION_COMPLETE then Err(UnhandledPacket)
      else if |buf| != 22 then Err(ShortBuffer)
      else if buf[4] != 0 then Err(IncorrectPacket)
      else Ok(OtherEvent)
    else if buf[1] == DISCONNECTION_COMPLETE then
      if |buf| != 6 then Err(ShortBuffer) else Ok(Counted(Disconnected(Get16(buf, 3))))
    else if buf[1] == NUMBER_OF_COMPLETED_PACKETS then
      if |buf| < 4 then Err(IndexOutOfRange) else Ok(Counted(Completed(Counts(buf, buf[3], 0))))
    else Err(UnhandledPacket)
  }

  /** Unmarshal. No command is ever accepted: its parser looks for a second packet type behind the first one, and then
      for an opcode in a single byte. */
  function UnmarshalPacket(buf: seq<Byte>): Result<HciPacket> {
    if buf == [] then Err(ShortBuffer)
    else if buf[0] == PACKET_TYPE_COMMAND then
      if |buf| < 2 then Err(IndexOutOfRange)
      else if buf[1] != PACKET_TYPE_COMMAND then Err(IncorrectPacket)
      else if |buf| < 5 || (buf[4] == 0 && |buf| == 5) then Err(IndexOutOfRange)
      else Err(ShortBuffer)
    else if buf[0] == PACKET_TYPE_EVENT then
      if |buf| < 3 then Err(IndexOutOfRange)
      else if |buf| != (buf[2] as int + 3) % 0x100 then Err(ShortBuffer)
      else UnmarshalEvent(buf)
    else if buf[0] == PACKET_TYPE_ACL_DATA then
      match Unmarshal(buf)
      case Ok(q) => Ok(AclData(q))
      case Err(e) => Err(e)
    else Err(UnhandledPacket)
  }

  /** The adapter's reader, on the ledger: it returns at the first packet it cannot read. The flag says whether it is
      still reading. */
  function Reader(l: Ledger, wire: seq<seq<Byte>>): (Ledger, bool)
    decreases |wire|
  {
    if wire == [] then (l, true)
    else match UnmarshalPacket(wire[0])
      case Err(_) => (l, false)
      case Ok(Counted(e)) => Reader(Post(l, e), wire[1..])
      case Ok(_) => Reader(l, wire[1..])
  }

  /** The data packets it hands to the connections meanwhile. */
  function Handed(wire: seq<seq<Byte>>): seq<AclPacket>
    decreases |wire|
  {
    if wire == [] then []
    else match UnmarshalPacket(wire[0])
      case Err(_) => []
      case Ok(AclData(q)) => [q] + Handed(wire[1..])
      case Ok(_) => Handed(wire[1..])
  }

  lemma NothingReadIsASend(buf: seq<Byte>)
    ensures var r := UnmarshalPacket(buf); r.Ok? && r.value.Counted? ==> !r.value.event.Sent?
  {
  }

  // ------------------------------------------------------------------ disconnections

  /** The refund is reached by events of exactly six bytes, whose length byte is 3. */
  lemma DisconnectionsRead(buf: seq<Byte>, h: Uint16)
    ensures UnmarshalPacket(buf) == Ok(Counted(Disconnected(h)))
            <==> |buf| == 6 && buf[..3] == [PACKET_TYPE_EVENT, DISCONNECTION_COMPLETE, 3] && Get16(buf, 3) == h
  {
    if |buf| == 6 {
      assert buf[..3] == [buf[0], buf[1], buf[2]];
    }
  }

  /** The event as the specification has it: a length of 4, then status, handle and reason. */
  function DisconnectionComplete(status: Byte, h: Uint16, reason: Byte): seq<Byte> {
    [PACKET_TYPE_EVENT, DISCONNECTION_COMPLETE, 4, status] + LE16(h) + [reason]
  }

  lemma {:induction false} ReaderAppend(l: Ledger, a: seq<seq<Byte>>, b: seq<seq<Byte>>)
    ensures Reader(l, a + b) == if Reader(l, a).1 then Reader(Reader(l, a).0, b) else Reader(l, a)
    decreases |a|
  {
    if a == [] {
      assert a + b == b;
    } else {
      assert (a + b)[0] == a[0] && (a + b)[1..] == a[1..] + b;
      match UnmarshalPacket(a[0]) {
        case Ok(Counted(e)) => ReaderAppend(Post(l, e), a[1..], b);
        case Ok(_) => ReaderAppend(l, a[1..], b);
        case Err(_) =>
      }
    }
  }

  /** It is not read but ends the reading, so that no link's packets are counted any more: whatever the controller
      reports after the first link has been dropped, the ledger stays as it was. */
  lemma NothingCountsAfterADisconnection(l: Ledger, before: seq<seq<Byte>>, status: Byte, h: Uint16, reason: Byte,
                                         after: seq<seq<Byte>>)
    ensures var wire := before + ([DisconnectionComplete(status, h, reason)] + after);
            Reader(l, wire).0 == Reader(l, before).0 && !Reader(l, wire).1
  {
    var e := DisconnectionComplete(status, h, reason);
    ReaderAppend(l, before, [e] + after);
    assert UnmarshalPacket(e) == Err(ShortBuffer);
    assert !Reader(Reader(l, before).0, [e] + after).1;
  }

  // ------------------------------------------------------------------ completions

  function Handles(counts: seq<(Uint16, Uint16)>): seq<Byte> {
    if counts == [] then [] else LE16(counts[0].0) + Handles(counts[1..])
  }

  function Numbers(counts: seq<(Uint16, Uint16)>): seq<Byte> {
    if counts == [] then [] else LE16(counts[0].1) + Numbers(counts[1..])
  }

  /** An event in the layout the parser expects: all handles, then all counts. */
  function CompletedPackets(counts: seq<(Uint16, Uint16)>): seq<Byte> {
    CompletedHeader(|counts|) + (Handles(counts) + Numbers(counts))
  }

  /** Length and number of links, each truncated to a byte. */
  function CompletedHeader(n: nat): seq<Byte> {
    [PACKET_TYPE_EVENT, NUMBER_OF_COMPLETED_PACKETS, (1 + 4 * n) % 0x100, n % 0x100]
  }

  /** Of the 62 links and fewer whose event is read, the length and the number are true. */
  lemma HeaderWritten(n: nat)
    requires n <= 62
    ensures CompletedHeader(n) == [4, 0x13, 1 + 4 * n, n]
  {
  }

  lemma {:induction false} ListBytes(counts: seq<(Uint16, Uint16)>, i: nat)
    ensures |Handles(counts)| == |Numbers(counts)| == 2 * |counts|
    ensures i < |counts| ==>
              Get16(Handles(counts), 2 * i) == counts[i].0 && Get16(Numbers(counts), 2 * i) == counts[i].1
    decreases |counts|
  {
    if counts != [] {
      ListBytes(counts[1..], if i > 0 then i - 1 else 0);
    }
  }

  lemma WordAppend(a: seq<Byte>, b: seq<Byte>, i: nat)
    ensures Word(a + b, |a| + i) == Word(b, i)
    ensures i + 2 <= |a| ==> Word(a + b, i) == Get16(a, i)
  {
  }

  lemma WordOfCompleted(counts: seq<(Uint16, Uint16)>, i: nat)
    requires i < |counts|
    ensures var buf := CompletedPackets(counts);
            Word(buf, 4 + 2 * i) == counts[i].0 && Word(buf, 4 + 2 * (|counts| + i)) == counts[i].1
  {
    var header := CompletedHeader(|counts|);
    var handles, numbers := Handles(counts), Numbers(counts);
    ListBytes(counts, i);
    WordAppend(header, handles + numbers, 2 * i);
    WordAppend(header, handles + numbers, 2 * |counts| + 2 * i);
    WordAppend(handles, numbers, 2 * i);
    WordAppend(numbers, [], 2 * i);
    assert numbers + [] == numbers;
  }

  lemma {:induction false} CountsAre(buf: seq<Byte>, counts: seq<(Uint16, Uint16)>, i: nat)
    requires forall k :: 0 <= k < |counts| ==>
               Word(buf, 4 + 2 * k) == counts[k].0 && Word(buf, 4 + 2 * (|counts| + k)) == counts[k].1
    requires i <= |counts|
    ensures Counts(buf, |counts|, i) == counts[i..]
    decreases |counts| - i
  {
    if i < |counts| {
      CountsAre(buf, counts, i + 1);
      assert (Word(buf, 4 + 2 * i), Word(buf, 4 + 2 * (|counts| + i))) == counts[i];
      assert counts[i..] == [counts[i]] + counts[i + 1..];
    }
  }

  lemma CountsOfCompleted(counts: seq<(Uint16, Uint16)>)
    ensures Counts(CompletedPackets(counts), |counts|, 0) == counts
  {
    forall k | 0 <= k < |counts|
      ensures Word(CompletedPackets(counts), 4 + 2 * k) == counts[k].0
      ensures Word(CompletedPackets(counts), 4 + 2 * (|counts| + k)) == counts[k].1
    {
      WordOfCompleted(counts, k);
    }
    CountsAre(CompletedPackets(counts), counts, 0);
    assert counts[0..] == counts;
  }

  /** The length byte says so only of an event of less than 256 bytes. */
  lemma LengthByte(n: nat)
    ensures 4 + 4 * n == ((1 + 4 * n) % 0x100 + 3) % 0x100 <==> n <= 62
    ensures n <= 62 ==> n % 0x100 == n
  {
  }

  lemma HeaderOfCompleted(counts: seq<(Uint16, Uint16)>)
    ensures var buf := CompletedPackets(counts);
            && |buf| == 4 + 4 * |counts|
            && buf[0] == PACKET_TYPE_EVENT && buf[1] == NUMBER_OF_COMPLETED_PACKETS
            && (|buf| == (buf[2] as int + 3) % 0x100 <==> |counts| <= 62)
            && (|counts| <= 62 ==> buf[3] == |counts|)
  {
    ListBytes(counts, 0);
    LengthByte(|counts|);
  }

  lemma CompletedAccepted(buf: seq<Byte>)
    requires |buf| >= 4 && buf[0] == PACKET_TYPE_EVENT && buf[1] == NUMBER_OF_COMPLETED_PACKETS
    ensures UnmarshalPacket(buf) == if |buf| == (buf[2] as int + 3) % 0x100
                                    then Ok(Counted(Completed(Counts(buf, buf[3], 0)))) else Err(ShortBuffer)
  {
  }

  lemma ReadsAs(buf: seq<Byte>, counts: seq<(Uint16, Uint16)>)
    requires |buf| >= 4 && buf[0] == PACKET_TYPE_EVENT && buf[1] == NUMBER_OF_COMPLETED_PACKETS
    requires |buf| == (buf[2] as int + 3) % 0x100 <==> |counts| <= 62
    requires |counts| <= 62 ==> buf[3] == |counts|
    requires Counts(buf, |counts|, 0) == counts
    ensures UnmarshalPacket(buf) == Ok(Counted(Completed(counts))) <==> |counts| <= 62
  {
    CompletedAccepted(buf);
  }

  /** An event in that layout is read as it was meant exactly up to 62 links. */
  lemma CompletionsRead(counts: seq<(Uint16, Uint16)>)
    ensures UnmarshalPacket(CompletedPackets(counts)) == Ok(Counted(Completed(counts))) <==> |counts| <= 62
  {
    HeaderOfCompleted(counts);
    CountsOfCompleted(counts);
    ReadsAs(CompletedPackets(counts), counts);
  }

  lemma TotalOfTwo(a: (Uint16, Uint16), b: (Uint16, Uint16))
    ensures Total([a, b]) == a.1 + b.1
  {
    assert [a, b][1..] == [b] && [b][1..] == [];
    assert Total([b]) == b.1 + Total([b][1..]);
  }

  /** If links are listed pair by pair, each handle with its count, then of two links the parser takes the second one's
      handle for the number of packets completed on the first, so it counts right only where those are equal. */
  lemma PairsMisread(h: Uint16, n: Uint16, g: Uint16, m: Uint16)
    ensures var buf := [PACKET_TYPE_EVENT, NUMBER_OF_COMPLETED_PACKETS, 9, 2] + (LE16(h) + LE16(n) + LE16(g) + LE16(m));
            UnmarshalPacket(buf) == Ok(Counted(Completed([(h, g), (n, m)])))
    ensures Total([(h, g), (n, m)]) == Total([(h, n), (g, m)]) <==> g == n
  {
    var buf := [PACKET_TYPE_EVENT, NUMBER_OF_COMPLETED_PACKETS, 9, 2] + (LE16(h) + LE16(n) + LE16(g) + LE16(m));
    assert Word(buf, 4) == h && Word(buf, 6) == n && Word(buf, 8) == g && Word(buf, 10) == m;
    assert Counts(buf, 2, 2) == [];
    assert Counts(buf, 2, 1) == [(n, m)];
    assert Counts(buf, 2, 0) == [(h, g)] + [(n, m)];
    assert |buf| == 12 && buf[2] == 9 && buf[3] == 2;
    CompletedAccepted(buf);
    assert Counts(buf, buf[3], 0) == [(h, g), (n, m)];
    TotalOfTwo((h, g), (n, m));
    TotalOfTwo((h, n), (g, m));
  }

  // ------------------------------------------------------------------ what the reader does with all of it

  /** A data packet is read as it was marshalled exactly if the format can carry it. */
  lemma DataRead(p: AclPacket)
    ensures UnmarshalPacket(Marshal(p)) == Ok(AclData(p)) <==> Encodable(p)
    ensures UnmarshalPacket(Marshal(p)).Ok? ==> UnmarshalPacket(Marshal(p)).value.AclData?
  {
    AclRoundTrip(p);
    MarshalReads(p);
  }

  /** No command is read, and of other packet types nothing. */
  lemma OtherTypesRefused(buf: seq<Byte>)
    requires buf == [] || buf[0] !in {2, 4}
    ensures UnmarshalPacket(buf).Err?
    ensures UnmarshalPacket(buf) ==
              if buf == [] then Err(ShortBuffer)
              else if buf[0] != 1 then Err(UnhandledPacket)
              else if |buf| == 1 then Err(IndexOutOfRange)
              else if buf[1] != 1 then Err(IncorrectPacket)
              else if |buf| < 5 || (|buf| == 5 && buf[4] == 0) then Err(IndexOutOfRange)
              else Err(ShortBuffer)
  {
  }

  /** Exactly which events are read, and the error for the others: the length byte is true in eight bits; command
      completions are at least 6 bytes, LE connection completions of 22 bytes report success, disconnections are 6 bytes
      and completions at least 4. */
  lemma EventsRead(buf: seq<Byte>)
    requires buf != [] && buf[0] == 4
    ensures UnmarshalPacket(buf).Ok? <==>
              && |buf| >= 3 && |buf| == (buf[2] as int + 3) % 256
              && (|| (buf[1] == 0x0E && |buf| >= 6)
                  || (buf[1] == 0x3E && |buf| == 22 && buf[3] == 1 && buf[4] == 0)
                  || (buf[1] == 0x05 && |buf| == 6)
                  || (buf[1] == 0x13 && |buf| >= 4))
    ensures UnmarshalPacket(buf).Ok? && buf[1] in {0x0E, 0x3E} ==> UnmarshalPacket(buf) == Ok(OtherEvent)
    ensures UnmarshalPacket(buf).Ok? && buf[1] == 0x05 ==>
              UnmarshalPacket(buf) == Ok(Counted(Disconnected(Get16(buf, 3))))
    ensures UnmarshalPacket(buf).Ok? && buf[1] == 0x13 ==>
              UnmarshalPacket(buf).value.Counted? && UnmarshalPacket(buf).value.event.Completed?
  {
  }

  /** What a controller can send that the reader understands. */
  datatype Incoming =
    | Completions(counts: seq<(Uint16, Uint16)>)
    | LinkDropped(handle: Uint16, reason: Byte)
    | Data(packet: AclPacket)
    | CommandDone(credits: Byte, opcode: Uint16, parameters: seq<Byte>)
    | LinkUp(parameters: seq<Byte>)

  predicate WellFormed(x: Incoming) {
    match x
    case Completions(counts) => |counts| <= 62
    case LinkDropped(_, _) => true
    case Data(p) => Encodable(p)
    case CommandDone(_, _, parameters) => |parameters| <= 249
    case LinkUp(parameters) => |parameters| == 17
  }

  /** Its bytes. */
  function BytesOf(x: Incoming): seq<Byte>
    requires WellFormed(x)
  {
    match x
    case Completions(counts) => CompletedPackets(counts)
    case LinkDropped(h, reason) => [4, 5, 3] + LE16(h) + [reason]
    case Data(p) => Marshal(p)
    case CommandDone(credits, opcode, parameters) => [4, 0x0E, 3 + |parameters|, credits] + LE16(opcode) + parameters
    case LinkUp(parameters) => [4, 0x3E, 19, 1, 0] + parameters
  }

  /** What becomes of it. */
  function Meant(x: Incoming): HciPacket {
    match x
    case Completions(counts) => Counted(Completed(counts))
    case LinkDropped(h, _) => Counted(Disconnected(h))
    case Data(p) => AclData(p)
    case _ => OtherEvent
  }

  lemma LinkDroppedRead(h: Uint16, reason: Byte)
    ensures UnmarshalPacket([4, 5, 3] + LE16(h) + [reason]) == Ok(Counted(Disconnected(h)))
  {
    var buf := [4, 5, 3] + LE16(h) + [reason];
    assert |buf| == 6 && buf[..3] == [4, 5, 3] && Get16(buf, 3) == h;
    DisconnectionsRead(buf, h);
  }

  lemma CommandDoneRead(credits: Byte, opcode: Uint16, parameters: seq<Byte>)
    requires |parameters| <= 249
    ensures UnmarshalPacket([4, 0x0E, 3 + |parameters|, credits] + LE16(opcode) + parameters) == Ok(OtherEvent)
  {
    var buf := [4, 0x0E, 3 + |parameters|, credits] + LE16(opcode) + parameters;
    assert |buf| == 6 + |parameters| && buf[0] == 4 && buf[1] == 0x0E && buf[2] as int == 3 + |parameters|;
    EventsRead(buf);
  }

  lemma LinkUpRead(parameters: seq<Byte>)
    requires |parameters| == 17
    ensures UnmarshalPacket([4, 0x3E, 19, 1, 0] + parameters) == Ok(OtherEvent)
  {
    var buf := [4, 0x3E, 19, 1, 0] + parameters;
    assert |buf| == 22 && buf[0] == 4 && buf[1] == 0x3E && buf[2] == 19 && buf[3] == 1 && buf[4] == 0;
    EventsRead(buf);
  }

  lemma IncomingRead(x: Incoming)
    requires WellFormed(x)
    ensures UnmarshalPacket(BytesOf(x)) == Ok(Meant(x))
  {
    match x {
      case Completions(counts) => CompletionsRead(counts);
      case LinkDropped(h, reason) => LinkDroppedRead(h, reason);
      case Data(p) => DataRead(p);
      case CommandDone(credits, opcode, parameters) => CommandDoneRead(credits, opcode, parameters);
      case LinkUp(parameters) => LinkUpRead(parameters);
    }
  }

  function Wire(xs: seq<Incoming>): seq<seq<Byte>>
    requires forall x :: x in xs ==> WellFormed(x)
  {
    if xs == [] then []
    else
      assert xs[0] in xs;
      assert forall x :: x in xs[1..] ==> x in xs;
      [BytesOf(xs[0])] + Wire(xs[1..])
  }

  function Counted1(x: Incoming): nat {
    if x.Completions? then Total(x.counts) else 0
  }

  function Dropped1(x: Incoming): set<Uint16> {
    if x.LinkDropped? then {x.handle} else {}
  }

  function Data1(x: Incoming): seq<AclPacket> {
    if x.Data? then [x.packet] else []
  }

  /** The data packets among them. */
  function DataIn(xs: seq<Incoming>): seq<AclPacket> {
    if xs == [] then [] else Data1(xs[0]) + DataIn(xs[1..])
  }

  /** All counts of all completion events. */
  function CountsOf(xs: seq<Incoming>): nat {
    if xs == [] then 0 else Counted1(xs[0]) + CountsOf(xs[1..])
  }

  /** The links dropped. */
  function Dropped(xs: seq<Incoming>): set<Uint16> {
    if xs == [] then {} else Dropped1(xs[0]) + Dropped(xs[1..])
  }

  /** What was pending on them. */
  function PendingOn(pending: map<Uint16, Uint16>, hs: set<Uint16>): map<Uint16, nat> {
    map h | h in pending && h in hs :: pending[h] as nat
  }

  lemma DroppedOne(pending: map<Uint16, Uint16>, h: Uint16, hs: set<Uint16>)
    ensures Sum(PendingOn(pending, {h} + hs)) == At(pending, h, 0) + Sum(PendingOn(pending - {h}, hs))
    ensures pending - ({h} + hs) == (pending - {h}) - hs
  {
    var rest := PendingOn(pending - {h}, hs);
    if h in pending {
      assert PendingOn(pending, {h} + hs) == rest[h := pending[h] as nat];
      SumUpdate(rest, h, pending[h] as nat);
    } else {
      assert PendingOn(pending, {h} + hs) == rest;
    }
  }

  /** From l to m what remains has grown, in sixteen bits, by so many packets and by what was pending on these links,
      and nothing but what was pending on them is forgotten. */
  ghost predicate Accounts(l: Ledger, m: Ledger, counted: nat, dropped: set<Uint16>) {
    && m.remaining == Wrap16(l.remaining + counted + Sum(PendingOn(l.pending, dropped)))
    && m.pending == l.pending - dropped
  }

  /** What one packet does to the ledger. */
  function After(l: Ledger, x: Incoming): Ledger {
    if x.Completions? then Post(l, Completed(x.counts))
    else if x.LinkDropped? then Post(l, Disconnected(x.handle))
    else l
  }

  lemma ReaderCons(l: Ledger, x: Incoming, wire: seq<seq<Byte>>)
    requires WellFormed(x)
    ensures Reader(l, [BytesOf(x)] + wire) == Reader(After(l, x), wire)
  {
    IncomingRead(x);
    assert ([BytesOf(x)] + wire)[0] == BytesOf(x) && ([BytesOf(x)] + wire)[1..] == wire;
  }

  lemma AccountsNext(l: Ledger, x: Incoming, m: Ledger, counted: nat, dropped: set<Uint16>)
    requires Accounts(After(l, x), m, counted, dropped)
    ensures Accounts(l, m, Counted1(x) + counted, Dropped1(x) + dropped)
  {
    if x.Completions? {
      WrapAdd(l.remaining + Total(x.counts), counted + Sum(PendingOn(l.pending, dropped)));
    } else if x.LinkDropped? {
      DroppedOne(l.pending, x.handle, dropped);
      WrapAdd(l.remaining + At(l.pending, x.handle, 0), counted + Sum(PendingOn(l.pending - {x.handle}, dropped)));
    }
    assert {} + dropped == dropped;
  }

  lemma WireCons(xs: seq<Incoming>)
    requires xs != [] && forall x :: x in xs ==> WellFormed(x)
    ensures WellFormed(xs[0]) && forall x :: x in xs[1..] ==> WellFormed(x)
    ensures Wire(xs) == [BytesOf(xs[0])] + Wire(xs[1..])
  {
    assert xs[0] in xs;
    assert forall x :: x in xs[1..] ==> x in xs;
  }

  lemma NothingAccounts(l: Ledger)
    ensures Accounts(l, l, CountsOf([]), Dropped([]))
  {
    assert PendingOn(l.pending, Dropped([])) == map[];
    assert l.pending - Dropped([]) == l.pending;
  }

  lemma ReaderNext(l: Ledger, xs: seq<Incoming>)
    requires xs != [] && forall x :: x in xs ==> WellFormed(x)
    ensures forall x :: x in xs[1..] ==> WellFormed(x)
    ensures Reader(l, Wire(xs)) == Reader(After(l, xs[0]), Wire(xs[1..]))
  {
    WireCons(xs);
    ReaderCons(l, xs[0], Wire(xs[1..]));
  }

  /** Reading any list of well-formed packets, data and other events among them, the reader never returns, and the
      ledger accounts for all the counts of the completions and for every link that was dropped. */
  lemma {:induction false} EverythingCounts(l: Ledger, xs: seq<Incoming>)
    requires forall x :: x in xs ==> WellFormed(x)
    ensures Reader(l, Wire(xs)).1 && Accounts(l, Reader(l, Wire(xs)).0, CountsOf(xs), Dropped(xs))
    decreases |xs|
  {
    if xs == [] {
      NothingAccounts(l);
    } else {
      ReaderNext(l, xs);
      EverythingCounts(After(l, xs[0]), xs[1..]);
      AccountsNext(l, xs[0], Reader(l, Wire(xs)).0, CountsOf(xs[1..]), Dropped(xs[1..]));
    }
  }

  lemma HandedCons(x: Incoming, wire: seq<seq<Byte>>)
    requires WellFormed(x)
    ensures Handed([BytesOf(x)] + wire) == Data1(x) + Handed(wire)
  {
    IncomingRead(x);
    assert ([BytesOf(x)] + wire)[0] == BytesOf(x) && ([BytesOf(x)] + wire)[1..] == wire;
  }

  /** And the data packets among them are all handed on, in their order. */
  lemma {:induction false} DataHandedOn(xs: seq<Incoming>)
    requires forall x :: x in xs ==> WellFormed(x)
    ensures Handed(Wire(xs)) == DataIn(xs)
    ensures forall q :: q in DataIn(xs) ==> Encodable(q)
    decreases |xs|
  {
    if xs != [] {
      WireCons(xs);
      HandedCons(xs[0], Wire(xs[1..]));
      DataHandedOn(xs[1..]);
    }
  }
}
