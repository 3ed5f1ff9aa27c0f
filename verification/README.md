# Verification of the L2CAP data path

A Dafny model of the data path of `muxable/bluetooth`: an LE credit-based L2CAP channel, from the SDU an application
writes, through segmentation, B-frames, ACL fragments and HCI packets, to the SDU the other application reads, together
with the two credit schemes that throttle it. Section numbers refer to the Bluetooth Core Specification 5.3.

`dafny verify dfyconfig.toml` checks the whole project.

## What is modelled

- `Bytes` holds bytes, 16-bit words and the chunk function behind every "cut at a limit" loop. Bytes and words are
  bounded integers; every place where the Go code wraps at 16 bits is written out with `Wrap16`.
- `ChannelStates` is the channel as a value: `Receive` is `receive`, with both refusals where the code has them, the
  second one after the credit is charged and the length consumed; `Indicate` is the handling of a credit indication.
- `Segmentation` is what `Write` cuts, and exactly when a receiver puts it back together.
- `CreditSystem` is two endpoints, each sending and receiving, joined by two FIFO wires on which frames of one direction
  and credits for the other travel together. A run is any sequence of writes, sends and deliveries.
- `Connections` is `Conn.Accept`: reading PDUs, connection requests, credit indications and routing. `CreditFanOut` is
  what an indication does to several channels at once.
- `Refusals` is the credit system with writers that keep to no limits.
- `WireSystem` is two real connections with any number of channels between them and marshalled PDUs on the wires, and a
  proof that for each channel it refines `CreditSystem` step for step, and `WireRuns` what follows for whole runs.
  `Handshakes` is how channels come about.
- `PacketSystem` puts fragmentation, recombination and buffers below the two connections, and refines `WireSystem`.
  `Runs` has what runs of any of these machines share.
- `AcceptOutcomes` says what Accept makes of each PDU and what is written in answer, byte for byte.
- `Frames`, `Signalling` and `AclPackets` are the codecs, `WireFormats` their bytes written out; `Recombination` is ACL
  fragmentation, the controllers' relabelling of start packets, and the recombining callback; `Interleavings` is several
  unsynchronised writers on one connection; `AclCredits` is the ledger of controller buffers, with sums over links from
  `Sums`, and `HciEvents` is the adapter's reader: which of the controller's bytes reach that ledger, which are handed
  on as data, and which end the reading.
- `EndToEnd` composes all layers at the byte level.
- `Channels`, `Adapters` and `Conns` are the objects of the Go code as classes, with its loops, proved against the
  functions above. Where the code waits, the method takes the events that will wake it as a parameter, consumes as few
  as it needs, and returns unfinished when they run out; a state-machine step waits by not being enabled.

## What the code does that one might not expect

Each of these is proved, with its exact condition.

- A refused connection request is accepted all the same, with the peer's unchecked MPS and credits
  (`Handshakes.RequestsAreAlwaysAccepted`). An MPS of 0 makes `Write` send empty frames for ever
  (`Channels.Channel.Write`), an MPS of 1 splits the length and delivers nothing
  (`Segmentation.SplitLengthDeliversNothing`), and the length of an SDU over 65535 bytes is truncated; all three are
  outside `Segmentation.Deliverable`, which is the exact condition for delivery (`Segmentation.SegmentationRoundTrip`)
  and, up to 65535 bytes, for not being refused (`Refusals.RefusedExactly`); beyond, wrong data can pass unrefused
  (`Segmentation.TruncatedLengthCanPass`).
- A source identifier already in use is accepted too, and then one indication credits several channels
  (`CreditFanOut.CreditsMultiply`).
- A window that opens at zero is never opened later (`CreditSystem.ClosedWindowStaysClosed`); the other direction is
  not affected (`CreditSystem.MaximalRunsDeliver`).
- A completed ACL packet stays pending, so a dropped link refunds it twice. The ledger is off by exactly the packets
  that had completed on dropped links, less 2^16 for each wrap (`AclCredits.CreditAccounting`). Packets keep moving
  exactly until total and stranded packets are used up by wraps (`AclCredits.BuffersKeepMoving`), which enough dropped
  links can bring about (`AclCredits.DroppedLinksCanStallForEver`); it is for ever exactly if nothing is pending either
  (`AclCredits.StalledExactly`).
- That refund is reached only by an event one byte shorter than the specification's. The event as specified is refused
  and ends the adapter's reading, so that no completion counts after it (`HciEvents.DisconnectionsRead`,
  `HciEvents.NothingCountsAfterADisconnection`). Completions of several links are read with all handles
  before all counts; listed pair by pair they are miscounted (`HciEvents.PairsMisread`).
- A recombination buffer that has overrun its length never recovers (`Recombination.RecoverableUnlessOverrun`), and one
  malformed packet is enough (`Recombination.DeadAfterOnePacket`).
- Fragments of a PDU are not written under one lock. Another writer's packet between them, on the same connection, makes
  the far end refuse a packet, and nothing else does (`Interleavings.WritersRecombine`,
  `Recombination.StartAmidFragments`).
- Of the signalling packets, CreditBasedConnectionRequest and InformationRequest never survive a round trip and an echo
  only if its data happen to begin with their own length (`Signalling.SignallingRoundTrip`); no G-frame does
  (`Frames.FrameRoundTrip`).
- Channel identifiers are used up by refused requests too, and wrap into the fixed channels after 0xFFC0 of them
  (`Connections.ChannelIdentifiers`).

## Model

| member | source | states |
|---|---|---|
| `EndToEnd.EndToEndDelivery` | pkg/l2cap/channel.go:70-157 | For the bytes of packets of any number of connections interleaved in any way, which the far controller passes on among any well-formed events, and on this connection any number of writers, signalling included, each with its own piece size and in any order of turns that does not cut into a PDU: if one writer sends a channel the frames of a list of SDUs and the others send it nothing, the far reader never returns, the PDUs recombine exactly, the reader of the channel gets exactly those SDUs in order, and every buffer is empty |
| `EndToEnd.OneChannelEndToEnd` | pkg/hci/adapter.go:262-338 | The same for one channel with only the limits, and controllers that lose no data, assumed: segment, frame, fragment, marshal, relabel, parse, recombine, unmarshal, route, reassemble is the identity on lists of SDUs |
| `EndToEnd.FramesWritten` | pkg/l2cap/channel.go:147-155 | The frames the writer of a channel hands down are, marshalled, the PDUs of these theorems |
| `EndToEnd.WritePacketCost` | pkg/hci/adapter.go:316-338 | One write causes exactly one fragment count of a full frame per full frame, plus that of a short last frame if there is one |
| `EndToEnd.FragmentsEncodable` | pkg/hci/adapter.go:328-332 | With a 12-bit handle and pieces of at most 65530 bytes every fragment is one the ACL format can carry |
| `EndToEnd.AirRelays` | pkg/hci/packet.go:73-95 | Parsing, relabelling and marshalling each packet on the way is relabelling the packets that were sent |
| `CreditSystem.CreditConservation` | pkg/l2cap/channel.go:71-110 | From any matching start, either window possibly zero, in every reachable state and in both directions: sender credits + frames in flight + credits on their way back == receiver window, no disconnection is ever sent, and a window is open exactly if it opened |
| `CreditSystem.DeliveredPrefix` | pkg/l2cap/channel.go:97-100 | In every reachable state each reader has been handed a prefix of the SDUs the other end wrote |
| `CreditSystem.NoDeadlock` | pkg/l2cap/channel.go:132-139 | In every reachable state sends and deliveries are impossible if and only if nothing is in flight and all that is unsent waits on a window that opened at zero |
| `CreditSystem.WorkDecreases` | pkg/l2cap/channel.go:102-110 | Every send and delivery lowers 3 x unsent + 2 x frames in flight + grants in flight |
| `CreditSystem.MaximalRunsDeliver` | pkg/l2cap/channel.go:126-157 | After the last write a run is bounded by that measure; where nothing more is enabled the reader of each open direction has exactly what was written, each closed direction is as it was, and no byte is buffered or in flight |
| `CreditSystem.CompletionExists` | pkg/l2cap/channel.go:126-157 | From every reachable state some run reaches such an end |
| `CreditSystem.ClosedWindowStaysClosed` | pkg/l2cap/conn.go:100-111 | If the sender starts without credits and none are on their way, no run whatever sends a frame or delivers anything in that direction |
| `CreditSystem.DeliveryNeedsAnOpenWindow` | pkg/l2cap/conn.go:108 | A first write is delivered on some run if and only if its receiver's window opened above zero, whatever the window the other way |
| `Refusals.RefusedExactly` | pkg/l2cap/channel.go:71-93 | When any SDUs of up to 65535 bytes are written, on every maximal run nobody ever asks to disconnect if and only if everything written in each open direction satisfies the limit predicate |
| `Refusals.MayYetBeRefused` | pkg/l2cap/channel.go:71-93 | In every reachable state where nobody has asked, somebody can come to ask without another write if and only if something undeliverable has been written in an open direction |
| `WireRuns.RunRefines` | pkg/l2cap/conn.go:28-172 | With any number of channels sharing the two connections, every run over marshalled PDUs is, for each channel, the run of the credit system that its own steps make |
| `WireSystem.HandleMeans` | pkg/l2cap/conn.go:117-166 | Handling a PDU changes the connection as handling its meaning changes the channel it is meant for, touches no other channel, and writes the same answer, a request to disconnect included |
| `WireRuns.WireSafety` | pkg/l2cap/conn.go:117-138 | From any matching start, on every run over bytes, no disconnection request is ever on a wire, and on every channel each reader has a prefix of what was written |
| `WireRuns.WireDelivery` | pkg/l2cap/channel.go:126-157 | After any writes on any channels every maximal run over bytes is bounded, the wires end empty, and on each channel each reader has exactly what was written if its window opened above zero, and nothing otherwise |
| `Handshakes.OneMoreChannel` | pkg/l2cap/channel.go:37-59 | Opening another channel with new identifiers on running connections leaves every other channel as it is, and the system again in good order |
| `PacketSystem.StepRefines` | pkg/hci/adapter.go:316-348 | With PDUs cut into ACL packets that wait for buffers: every cut, transmission, completion and arrival is a step of the connections over whole PDUs, or none |
| `PacketSystem.RunRefines` | pkg/hci/adapter.go:316-348 | Every run over packets and buffers is, through the PDUs the packets become, a run of the two connections |
| `PacketSystem.StackSafety` | pkg/hci/adapter.go:262-348 | On every run of the whole stack recombination refuses no packet, and on every channel each reader has a prefix of what was written |
| `PacketSystem.BuffersConserved` | pkg/hci/adapter.go:340-348 | On every run of the whole stack and on each side, the packets in the controller have grown, and the buffers that remain have shrunk, by exactly the packets written less those completed |
| `PacketSystem.StackDelivery` | pkg/hci/adapter.go:316-348 | Throttled by channel credits and buffers together, every maximal run without further writes is bounded and ends with everything delivered in the open directions of every channel, no packet anywhere and every buffer empty; even if each end does one thing at a time |
| `Handshakes.HandshakeOpens` | pkg/l2cap/channel.go:37-59 | For every request and every state of the accepting connection: the end that accepts and approves it and the peer, which acts on a response with its identifier and result 0 whatever refusals were written before it, are in the initial state of these theorems if and only if neither identifier is one of the fixed channels 2, 4, 5 and no other channel sends to the source CID; the windows are then 500 and what the request brought, zero included, and the exact condition for each end to be able to write an SDU |
| `Handshakes.ResponseArrives` | pkg/l2cap/packet.go:544-574 | The peer reads from the response PDU the packet that was written |
| `WireSystem.StepRefines` | pkg/l2cap/channel.go:126-157 | Each write, send and delivery over bytes is, for the one channel it concerns, an enabled step of the credit system, and leaves every other channel as it was |
| `Handshakes.RequestsAreAlwaysAccepted` | pkg/l2cap/conn.go:56-115 | Every connection request yields a channel with the peer's raw MPS and credits and uses an identifier; it was not also refused iff its MTU, MPS and source CID are acceptable, the source CID is unused and there is room |
| `Segmentation.SegmentationRoundTrip` | pkg/l2cap/channel.go:81-100 | From an idle channel the frames of successive writes deliver exactly the SDUs written if and only if there is credit and every SDU satisfies the limit predicate |
| `Segmentation.WritesDelivered` | pkg/l2cap/channel.go:81-110 | In that case nothing is refused, the channel is idle again with credit left, and nothing but the credits and the delivered list has changed |
| `Segmentation.SplitLengthDeliversNothing` | pkg/l2cap/channel.go:71-77 | With a TxMPS of 1 every frame of any writes is refused and the receiver stays exactly as it was |
| `Segmentation.WritesAcceptedExactly` | pkg/l2cap/channel.go:71-93 | Of SDUs of up to 65535 bytes nothing is refused if and only if every one satisfies the limit predicate |
| `Segmentation.TruncatedLengthCanPass` | pkg/l2cap/channel.go:130-131 | Above that a write can be wrong and not be refused: 65536 zero bytes cut at 2 |
| `Segmentation.WriteCost` | pkg/l2cap/channel.go:130-146 | A write is ceil((len+2)/TxMPS) frames, none empty, none above TxMPS, all but the last full, which concatenate to the length and the SDU |
| `Segmentation.NegotiatedLimitsSuffice` | pkg/l2cap/channel.go:38-42 | 2 <= TxMPS <= RxMPS and len <= RxMTU imply the limit predicate, the empty SDU and TxMPS == 2 included |
| `ChannelStates.ReassemblyConservation` | pkg/l2cap/channel.go:70-100 | Over any frames, refused ones included: the bytes consumed are exactly the new SDUs, each behind its own length, then the announced part of the pending one; no SDU exceeds RxMTU; nothing is buffered between SDUs |
| `ChannelStates.RefusedWhen` | pkg/l2cap/channel.go:71-93 | A frame is refused if and only if no credit is left, it is too short to announce an SDU, it brings more than is announced or than RxMPS, or more is announced than RxMTU |
| `ChannelStates.AcceptedFrameCredits` | pkg/l2cap/channel.go:79-110 | A frame that is not refused costs one credit; if the window stood at 71 or less, 500 are added and granted, and otherwise nothing is answered |
| `ChannelStates.RefusedFrameLeaves` | pkg/l2cap/channel.go:71-93 | A refused frame changes nothing if it was not readable, and otherwise costs a credit and leaves the length it announced |
| `ChannelStates.IndicationTaken` | pkg/l2cap/conn.go:117-136 | An indication is refused whole, changing nothing, if and only if it is not zero and would pass 65535; otherwise its credits are added |
| `ChannelStates.ReceiveCreditBalance` | pkg/l2cap/channel.go:71-110 | Over any frames the window is initial + granted - charged, never above 570 once there, and above 70 after every frame while none is refused; what is granted is a multiple of 500 |
| `ChannelStates.NoCreditIsForever` | pkg/l2cap/channel.go:71-77 | At zero credit every further frame is refused and nothing ever changes |
| `ChannelStates.TransmitCreditBalance` | pkg/l2cap/channel.go:133-139 | Against any peer the transmit balance is the unbounded initial + accepted - sent, so it never wraps and no more frames are sent than credits were given |
| `ChannelStates.TxCreditsDoNotMatter` | pkg/l2cap/channel.go:70-113 | What is received does not depend on the transmit credits |
| `Channels.Channel.constructor` | pkg/l2cap/conn.go:100-111 | A new channel has the request's identifiers, MPS and credits and an empty receive side |
| `Channels.Channel.Approve` | pkg/l2cap/channel.go:37-43 | The receive MTU is as given, the receive MPS is that but at most 1004, and the window opens at 500 |
| `Channels.Channel.OnFrame` | pkg/l2cap/channel.go:70-113 | In-place `receive` is the step function, reply included; a frame that is not refused costs a credit and, from 71 down, brings a grant of 500 |
| `Channels.Channel.OnCredits` | pkg/l2cap/conn.go:117-138 | In-place handling of a credit indication: zero ignored, overflow refused whole |
| `Channels.Channel.Read` | pkg/l2cap/channel.go:115-124 | Takes the oldest SDU; copies it, or loses it when the buffer is short |
| `Channels.Channel.AwaitCredit` | pkg/l2cap/channel.go:133-137 | The wait for a credit: every indication taken is added, none is taken while there is a credit, and it goes on waiting only when they have run out |
| `Channels.Channel.Write` | pkg/l2cap/channel.go:126-157 | The frames are a prefix of the SDU's segments, all of them iff it finishes; each costs one credit; without the last indication it used there were fewer credits than frames if it finished, and no more than frames otherwise; with TxMPS 0 it never finishes |
| `Recombination.RecombinationConservation` | pkg/hci/adapter.go:262-287 | Over any ACL packets: delivered PDUs followed by the residue are exactly the old buffer and the accepted payloads, and each PDU's length header is true |
| `Recombination.FlagsRead` | pkg/hci/adapter.go:262-287 | Flag by flag: another handle is ignored, 1 appends, 2 opens an empty buffer and is refused on any other, every other flag is refused; the result is passed on if and only if its length is what its first two bytes announce |
| `Recombination.FlagsWritten` | pkg/hci/adapter.go:316-338 | The first packet of a PDU carries flag 0 and the others 1, all but the last are of ACLMTU bytes, none is empty, and together they are the PDU; on the way 0 becomes 2 |
| `Recombination.FragmentationRoundTrip` | pkg/hci/adapter.go:316-338 | At any positive ACLMTU a list of PDUs recombines to itself if and only if every PDU carries its true length |
| `Recombination.AllFragmentsRecombine` | pkg/hci/adapter.go:268-286 | In that case there is no error and no residue |
| `Recombination.HandlesDoNotInterfere` | pkg/hci/adapter.go:263-266 | A connection's PDUs, errors and buffer are those of its own packets alone, however interleaved |
| `Recombination.OverrunIsForever` | pkg/hci/adapter.go:281-286 | Once the buffer holds more than its header announces, no packets ever make that connection deliver again |
| `Recombination.DeadAfterOnePacket` | pkg/hci/adapter.go:268-286 | One packet on an idle connection silences it for good if and only if its payload is longer than its own header announces; such a packet exists |
| `Recombination.RecoverableUnlessOverrun` | pkg/hci/adapter.go:281-286 | A buffer between packets can still be completed if and only if it has not overrun |
| `Recombination.StartAmidFragments` | pkg/hci/adapter.go:270-275 | A start packet after k fragments of another PDU is refused if and only if that PDU has begun and is not finished |
| `Interleavings.WritersRecombine` | pkg/hci/adapter.go:316-338 | For any number of unsynchronised writers on a connection and any order of turns: every packet is accepted if and only if none is written while another writer is in the middle of a PDU, and then the PDUs come out whole in the order begun with nothing left over |
| `Interleavings.EveryOrderIsSafe` | pkg/hci/adapter.go:328-332 | Every order of turns is free of errors if and only if a writer with a PDU larger than its piece size is the only one with anything to write; so always when all PDUs fit |
| `Adapters.Recombiner.OnPacket` | pkg/hci/adapter.go:262-287 | The callback in place is the recombination step |
| `Adapters.Recombiner.OnPackets` | pkg/hci/adapter.go:250-288 | A run of packets through the callback is the recombination run: PDUs, errors and buffer |
| `Adapters.Adapter.OnBufferSize` | pkg/hci/adapter.go:167-172 | Sets the ACLMTU and the packets remaining, leaves what is pending |
| `Adapters.Adapter.OnNumberOfCompletedPackets` | pkg/hci/adapter.go:44-50 | The loop adds all counts in sixteen bits and leaves what is pending |
| `Adapters.Adapter.OnDisconnectionComplete` | pkg/hci/adapter.go:51-57 | Refunds what is pending on the link and forgets it |
| `Adapters.Adapter.TakeBuffer` | pkg/hci/adapter.go:340-348 | Takes one buffer and counts it as pending on the link |
| `Adapters.Adapter.AwaitBuffer` | pkg/hci/adapter.go:341-344 | The wait for a buffer: events are taken only while none remains, and it goes on waiting only when they have run out |
| `Adapters.Adapter.ReadLoop` | pkg/hci/adapter.go:32-65 | The reader over raw packets, in place: the ledger and the data packets handed on are those of the reader function, which returns at the first packet it cannot read |
| `HciEvents.EverythingCounts` | pkg/hci/adapter.go:32-65 | After any list of well-formed packets, completions of up to 62 links, six-byte disconnections, data and the events that set the adapter up, the adapter is still reading; remaining is, in sixteen bits, the old value, all counts and what was pending on each dropped link; and only those links are forgotten |
| `HciEvents.DataHandedOn` | pkg/hci/adapter.go:59-63 | And it has handed on exactly the data packets among them, in order |
| `HciEvents.DataRead` | pkg/hci/packet.go:56-61 | A marshalled data packet is read through the dispatcher as it was if and only if the format can carry it |
| `HciEvents.EventsRead` | pkg/hci/packet.go:34-55 | Exactly which bytes are read as events, and as what |
| `HciEvents.OtherTypesRefused` | pkg/hci/packet.go:20-33 | Nothing but events and data is ever read: no command and no other type, with the error of each |
| `HciEvents.DisconnectionsRead` | pkg/hci/packet.go:238-249 | A disconnection is read from exactly the six-byte events whose length byte is 3 |
| `HciEvents.NothingCountsAfterADisconnection` | pkg/hci/adapter.go:32-43 | The seven-byte event of the specification ends the reading, and nothing the controller reports after it reaches the ledger |
| `HciEvents.CompletionsRead` | pkg/hci/packet.go:198-214 | A completion event with all handles before all counts is read as it was meant if and only if it lists at most 62 links |
| `HciEvents.PairsMisread` | pkg/hci/packet.go:209-212 | A completion event that lists two links pair by pair is counted right if and only if the second handle equals the first count |
| `Adapters.Adapter.Write` | pkg/hci/adapter.go:316-338 | The packets are a prefix of the PDU's fragments, all of them iff it finishes; every packet takes a buffer when one is free, an event is waited for only when none is and a packet is still to be written; the ledger is that of the trace of sends and events; with ACLMTU 0 it never finishes |
| `AclCredits.CreditAccounting` | pkg/hci/adapter.go:44-56 | On every run of sends, completions and disconnections, remaining + outstanding equals total + the packets completed on dropped links - 2^16 for each wrap of a count; so it equals the total if and only if those packets are 2^16 for each wrap, in particular if there are none |
| `AclCredits.ConservedWithoutDisconnections` | pkg/hci/adapter.go:44-50 | Without disconnections, remaining + outstanding == total exactly |
| `AclCredits.DroppedLinkOvercommits` | pkg/hci/adapter.go:51-57 | A five-event run that puts two packets into a controller with one buffer |
| `AclCredits.BuffersKeepMoving` | pkg/hci/adapter.go:340-348 | On every run a packet can be sent or completed if and only if total + stranded packets is not 2^16 times the wraps; so wherever it is no multiple of 2^16 |
| `AclCredits.BuffersAlwaysMove` | pkg/hci/adapter.go:44-50 | So with any buffer and no disconnections a packet can always be sent or completed |
| `AclCredits.StalledExactly` | pkg/hci/adapter.go:340-348 | No continuation ever sends a packet if and only if nothing remains, nothing is outstanding and nothing is pending |
| `AclCredits.DroppedLinksCanStallForEver` | pkg/hci/adapter.go:51-57 | For every total there is a legal run with disconnections to such a state |
| `Connections.ChannelsDoNotInterfere` | pkg/l2cap/conn.go:117-168 | Whatever else arrives, malformed PDUs included, a channel's buffers, SDUs and credits are those of its own frames and indications |
| `CreditFanOut.CreditsGoToEveryTaker` | pkg/l2cap/conn.go:117-138 | One PDU raises the transmit credits of all channels together by what it announces times the channels that take it; nothing but an indication moves them |
| `CreditFanOut.CreditsDoNotMultiply` | pkg/l2cap/conn.go:121-134 | While no two channels send to the same identifier, no run of PDUs gives the channels together more credits than its indications announce |
| `CreditFanOut.CreditsMultiply` | pkg/l2cap/conn.go:88-98 | Some PDU gives more credits than it announces if and only if two channels with room for a credit send to the same identifier, as refused duplicates that are accepted do |
| `Connections.ChannelIdentifiers` | pkg/l2cap/conn.go:104-113 | On every run of a new connection the identifiers handed out are distinct and dynamic iff there were at most 0xFFC0 requests; every registered channel is under its own identifier, and then clear of the fixed ones |
| `Connections.AcceptConsumes` | pkg/l2cap/conn.go:28-34 | Accept stops at the first PDU that yields a channel, an error or a disconnection, in the state the PDUs up to there lead to; each PDU up to there has the outcome it has in the state it found |
| `AcceptOutcomes.PdusHandled` | pkg/l2cap/conn.go:29-168 | What each PDU comes to, by its bytes: one whose length header is not true ends Accept with an error; group frames, attribute requests and frames for unknown channels are ignored, except that an empty attribute request panics; channel 5 goes to the signalling handler and a registered channel gets its frame |
| `AcceptOutcomes.SignallingEnds` | pkg/l2cap/conn.go:50-161 | A signalling packet that is malformed or has no handler ends Accept with an error, a disconnection packet ends it, and none of them changes the connection |
| `AcceptOutcomes.IndicationsHandled` | pkg/l2cap/conn.go:117-140 | A credit indication adds to every channel that sends to the identifier and has room, and to no other, and reports exactly those without room |
| `AcceptOutcomes.OverflowsAnswered` | pkg/l2cap/conn.go:125-133 | Each channel reported gets one request to disconnect, each under an identifier of its own, and nothing else is written |
| `AcceptOutcomes.FrameAnswered` | pkg/l2cap/channel.go:70-113 | A refused frame puts one DisconnectionRequest on the wire, with the peer's identifier as destination and our own as source; an accepted one puts a grant of 500 there if the window stood at 71 or less, and nothing otherwise |
| `AcceptOutcomes.RequestsHandled` | pkg/l2cap/conn.go:100-115 | A connection request, as bytes, yields a channel with the next identifier and the peer's identifier, MPS and credits, and uses up one identifier |
| `AcceptOutcomes.RequestsRefused` | pkg/l2cap/conn.go:57-98 | The refusals written for it, in order: 0x000B iff MTU < 23, MPS < 23 or MPS > 65533; then 0x0004 iff 0xFFC0 channels are registered; then 0x0009 iff the source CID is at most 0x3F; then 0x000A once for each channel that sends to the source CID; all with the request's identifier |
| `AcceptOutcomes.RefusalsArrive` | pkg/l2cap/packet.go:544-574 | The peer reads each refusal as it was written |
| `AcceptOutcomes.ApprovalAnnounces` | pkg/l2cap/channel.go:37-59 | For every request, connection and MTU: the bytes Approve writes are read by the peer as a response with the request's identifier, the identifier handed out, that MTU, an MPS of at most 1004, 500 credits and result 0; and these are the limits the channel has |
| `Conns.Conn.constructor` | pkg/l2cap/conn.go:19-26 | No channels, first identifier 0x40 |
| `Conns.Conn.Approve` | pkg/l2cap/channel.go:37-59 | Registers the very object that was offered, with its limits set, and writes a response with its identifiers, the MTU, an MPS of at most 1004, 500 credits and result 0 |
| `Conns.Conn.AcceptFrom` | pkg/l2cap/conn.go:28-172 | The loop of Accept, in place, is the Accept function; the returned channel is fresh and keeps the identifier of the request |
| `Conns.Conn.OnPdu` | pkg/l2cap/conn.go:35-168 | One turn of the loop, in place, is the PDU step |
| `Conns.Conn.OnSignalling` | pkg/l2cap/conn.go:49-161 | The signalling branch, in place, is the signalling step |
| `Conns.Conn.OnRequest` | pkg/l2cap/conn.go:56-115 | Makes the channel, advances the identifier, returns the refusals written |
| `Conns.Conn.FindRefusals` | pkg/l2cap/conn.go:57-98 | The refusal packets of the four checks, in order, as AcceptOutcomes.RequestsRefused lists them |
| `Conns.Conn.RefuseDuplicates` | pkg/l2cap/conn.go:88-98 | One refusal for each registered channel that already uses the source identifier |
| `Conns.Conn.OnCredits` | pkg/l2cap/conn.go:121-140 | The loop credits every channel that sends to the identifier and reports those that would overflow |
| `Frames.FrameRoundTrip` | pkg/l2cap/frame.go:15-91 | A marshalled frame comes back from UnmarshalFrame if and only if it is a B-frame not addressed to channel 2 |
| `Frames.AcceptedFrameIsMarshalled` | pkg/l2cap/frame.go:51-58 | What is accepted as a B-frame within 65539 bytes is exactly what Marshal writes for it |
| `Frames.MarshalBFrame` | pkg/l2cap/frame.go:40-49 | Marshal in place, too large payloads refused |
| `Frames.SplitConcat` | pkg/l2cap/frame.go:40-58 | A concatenation of frames splits into those frames with nothing left |
| `Frames.UniqueDecoding` | pkg/l2cap/frame.go:40-58 | Two lists of frames have the same concatenation if and only if they are the same |
| `Signalling.SignallingRoundTrip` | pkg/l2cap/packet.go:21-72 | For every packet of every type and size: it comes back through the dispatcher if and only if the listed condition on its type and data holds |
| `Signalling.AcceptedPacketIsMarshalled` | pkg/l2cap/packet.go:21-72 | An accepted buffer starts with the re-marshalled packet, and equals it for types of variable size, except for the two broken types and an odd list of identifiers |
| `Signalling.LengthOnTheWire` | pkg/l2cap/packet.go:375-401 | The length field is the true length exactly up to 65535 bytes, and never for CreditBasedConnectionRequest |
| `Signalling.MarshalInPlace` | pkg/l2cap/packet.go:88-695 | Every Marshal, filling its buffer in place |
| `Signalling.PutCids` | pkg/l2cap/packet.go:691-693 | The loop writes the identifiers behind what is already there |
| `Signalling.GetCids` | pkg/l2cap/packet.go:712-715 | The loop reads as many identifiers as fit |
| `AclPackets.AclRoundTrip` | pkg/hci/packet.go:73-95 | A packet survives if and only if its handle has 12 bits, its flags 2 each and its payload at most 65530 bytes |
| `AclPackets.AcceptedAclIsMarshalled` | pkg/hci/packet.go:73-87 | An accepted buffer is what Marshal writes for the packet read from it |
| `AclPackets.HeaderFields` | pkg/hci/packet.go:92 | For fields within their widths the shifted or is their sum |
| `AclPackets.MarshalInPlace` | pkg/hci/packet.go:89-95 | Marshal in place |
| `WireFormats.SignallingBytes` | pkg/l2cap/packet.go:88-695 | The bytes of every signalling packet, field by field |
| `WireFormats.SignallingJudged` | pkg/l2cap/packet.go:21-72 | For every buffer, whether it is read as a signalling packet, and with which error if not |
| `WireFormats.FixedRead` | pkg/l2cap/packet.go:130-605 | What is read from the packets of fixed size, field by field |
| `WireFormats.VariableRead` | pkg/l2cap/packet.go:98-408 | What is read from rejects, echoes and information responses |
| `WireFormats.CidListRead` | pkg/l2cap/packet.go:632-717 | What is read from the packets that list identifiers |
| `WireFormats.FrameBytes` | pkg/l2cap/frame.go:15-58 | The bytes of both kinds of frame |
| `WireFormats.FramesRead` | pkg/l2cap/frame.go:51-91 | For every buffer, whether it is read as a frame and as which |
| `WireFormats.AclBytes` | pkg/hci/packet.go:89-95 | The bytes of a data packet |
| `WireFormats.AclRead` | pkg/hci/packet.go:73-87 | For every buffer, whether it is read as a data packet, with which fields, or with which error |
| `Bytes.LittleEndian` | pkg/l2cap/frame.go:44-56 | Words are written low byte first, and reading and writing undo each other |

## Left out

- Sockets, ioctls, polling and logging (pkg/hci/socket.go): foreign calls; the bytes they carry are the model's wires.
- Goroutines, mutexes and condition variables: each critical section is one atomic step and each wait an enabling
  condition. `c.TxCredits--` (pkg/l2cap/channel.go:139) stands after the unlock and can race with the addition in
  pkg/l2cap/conn.go:135; the model assumes that neither update is lost. Callbacks are started with `go cb` and may
  overtake each other in Go; the model runs them in order.
- The unbuffered `rxCh`: delivery goes into an unbounded queue, so progress assumes a reader that keeps reading.
- Teardown: runs stop at the first disconnection packet. What `Close` does, to a missing channel included, is not
  modelled.
- `Reject`: writes one response and changes no state.
- Approving the same offered channel twice: the model registers the channel as it was offered.
- `NextIdentifier`: the model keeps one counter per connection where the code has one for the process; nothing reads it.
- HCI commands and the events that do not move the buffer ledger: none of them touches the data path, and only whether
  they end the reading is kept.
- AclCredits.CreditAccounting: the runs are of events as the ledger takes them, and legal in that no link completes more
  than it was sent; what of the controller's bytes becomes such an event is in HciEvents.
- Handshakes.HandshakeOpens: a request that fails a check is answered with refusals before the success response; the
  peer is modelled as acting on the latter.
- The ATT error reply (pkg/l2cap/conn.go:38-48): no state; only the panic on an empty ATT payload is kept.
- Unmarshal of signalling packets is a function from bytes to a packet value, since each receiver is a new object that
  nothing else holds; only its loop over channel identifiers is imperative.
- PacketSystem.StackDelivery: an end cuts one PDU at a time, so that no packet is written inside another PDU; exactly
  when unsynchronised writers keep to that is Interleavings.WritersRecombine. Links are not dropped, and other links of
  the same controller only complete packets.
- AclCredits.DroppedLinksCanStallForEver: the controller completes whatever it was sent, however far the host has been
  led to exceed its buffers.
- EndToEnd.EndToEndDelivery: assumes that no disconnection packet and nothing that makes Accept panic is among the PDUs,
  and that no writer cuts into another one's PDU; without the latter Interleavings.WritersRecombine shows that a packet
  is refused.
- Adapters.Adapter.Write: the ACLMTU stays fixed during one call.
