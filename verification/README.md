# Tapir: the packet path, proved

Tapir is a VPN. A packet read from a tunnel interface gets a serial number per endpoint,
is compressed, encoded, padded, encrypted and sent over one of many connections, which
the model of the protocol merges into one retry table and one accumulator a side; the
other side takes the datagram apart, acknowledges it in batches, and a stream merger
puts the packets of every endpoint back in order. This project models that path in
Dafny and proves what it guarantees.

The main results are about whole runs:

- **End to end** (`Protocol`, `ProtocolRuns`, `EndToEnd`, `Carriers`, `Recovery`,
  `Completion`, `Restart`, `Peers`). Two peers and a network that may duplicate, delay,
  reorder and lose every datagram, in either direction; packets and acknowledgements are
  sent once, goroutines resend until they give up, channels are first in, first out.
  Delivered packets are a prefix of the packets read; no acknowledgement is false;
  everything acknowledged is delivered; an entry can be settled exactly while something
  is left that carries its packet or its acknowledgement; delivery can be completed
  exactly while every packet is received or carried and what waits in the stream's
  channel causes no flush; no datagram of a run makes a receive loop panic. These rest on
  all the layers below, with their real encodings.
- **Stream merger** (`Reorder`, `Delivery`, `Backlog`, `Streams` on values; `Merger`,
  `StreamLoops` as the code is written). The waiting list keeps an invariant over the
  full 32-bit domain, so several branches of the code are dead; its output is exactly the
  contiguous run of what was received; flushes keep order, lose nothing that waits and
  always leave a hole, and the arrivals alone decide whether there is one; endpoints do
  not interfere.
- **Wire format** (`Bytes`, `Fields`, `AckCodec`, `Codec`, `Layout`, `Encryptor`,
  `Datagram`, `TcpFraming`). Round trips with exact conditions, through encryption,
  datagrams and arbitrarily chunked streams; what stands at every position, and what is
  made of any bytes that arrive; which key protects what.
- **Acknowledgement batching** (`Acknowledgements`), **retransmission**
  (`Retransmission`, `RetryTimer`, `Rto`), **keepalive** (`Keepalive`) and **numbering**
  (`Numbering`, `Listener`).
- **Server tables** (`Tables`, `ServerTables`, `TableRuns`, `Routing`): sessions,
  interfaces, address blocks and connections over arbitrary interleavings, and who may
  use a session.

Code that changes state is modelled by classes and loops and proved against functions on
values; runs are folds of those functions, and the theorems are about the runs. Clock
readings, random draws, the iteration order of maps, the chunks a connection returns and
the names the operating system gives are inputs of each step, so a result holds for all of
them unless its row says otherwise.

Where the code is stronger or weaker than one would expect, the model follows the code:

- Section "Authentication request" of the repository's README lists two fields; the code
  writes and expects five (pkg/codec/tapir.go:93-98), and so does `Codec`.
- A goroutine that ends deletes the key of a message that has already been reset, so an
  entry that timed out stays in the table (`Retransmission.Retry.Finish`). The key it
  deletes is that of number 0 of endpoint 0, which no packet has before that endpoint has
  used up all numbers (`EndToEnd.NumberZeroIsNotIssued`).
- Nothing resends a packet once its goroutine has given up, so an entry can stay in the
  table for good (`Recovery.GivenUpIsStuck`; `Recovery.EntryCanBeSettledIff` says exactly
  when one cannot be settled any more).
- A message that overtook number 1 and is longer than the limit, or waited too long, is
  handed over, and number 1 is dropped when it comes (`Completion.LongHeadBlocksCompletion`,
  `Backlog.OldGapIsGivenUp`; `Completion.DeliveryCanCompleteIff` says exactly when
  delivery can still be completed).
- After an eviction numbers begin at 1 again, but the other side's list keeps its last
  number: packets are acknowledged and lost (`Restart.AcknowledgedAndLost`;
  `Restart.RestartLosesExactly` says which).
- Serial numbers may wrap. Delivery is at most once exactly below the largest ID
  (`Delivery.DeliveryIsAtMostOnceIff`, with an example run beside it).
- A connection that a newer one of its session, protocol and port has displaced is not
  taken out of the interface when it goes away, and packets keep leaving by it
  (`Routing.DisplacedStays`; `Routing.GoneIsRoutedIff` says exactly when).
- An interface name that the operating system reuses can break the server's tables;
  `TableRuns.ReusedNameBreaksTables` gives the run, and `Tables` the exact conditions
  under which each operation keeps them consistent.
- The UDP loop reports a connection gone under session 0 when it cannot read a header,
  and that can break the tables as well: the interface goes, the session stays, and the
  next authentication panics (`TableRuns.BadHeaderBreaksTables`;
  `ServerTables.ServerUseCase.CommandAuthentication` says exactly when it panics).
- A session whose interface could not be made stays when its client asks for a new one,
  with the user for whom it was made: another user of that client gets it
  (`TableRuns.SessionChangesHands`; `TableRuns.AlwaysAuthorised` says that this is the
  only way).
- The branch that lowers the eviction threshold by one is never taken
  (`Numbering.ThresholdIsRound`).
- An empty data payload announces a block that is never sent: a datagram receiver rejects
  it, and on a byte stream it is not found as a frame (`TcpFraming.WireIsOneFrame`).

`dafny verify dfyconfig.toml` checks the whole project.

## Model

| member | source | states |
|---|---|---|
| EndToEnd.DeliveredIsPrefix | adapter/merger/stream.v1.go:37-93 | End-to-end order, over every run of two peers and a network that loses, duplicates, delays and reorders datagrams in both directions: what the session stream has handed over for an endpoint is a prefix of the packets the other peer read for it, while the endpoint was not evicted, its list not flushed and its counter not exhausted |
| EndToEnd.AcknowledgedIsDelivered | adapter/retry/retry.go:94-127 | Once every packet of the endpoint was stored and has left the retry table, and the stream has taken what was received from its channel, the packets handed over are exactly the packets read, in order |
| EndToEnd.AloneDeliversFromFirst | adapter/merger/stream.v2.go:47-138 | With one loop per session and endpoint the output is a prefix of the packets from the first one that arrived on, and all of those once everything is acknowledged |
| EndToEnd.NoFalseAcknowledgement | adapter/retry/retry.go:94-127 | In every run, an entry that has left the retry table is one whose packet the other side has received, with the contents that were read; for the key that every ending goroutine deletes this holds until endpoint 0 has read as many packets as there are numbers |
| EndToEnd.RemovalIsEarned | adapter/retry/retry.go:97-99 | Each single removal happens in a step in which a datagram of the other side arrives, and what it removes had been received before that step; for the key of a reset message under the same condition |
| EndToEnd.NumberZeroIsNotIssued | adapter/wiface/iface.go:99-107 | Evictions included, no packet of an endpoint gets number 0 before the endpoint has read as many packets as there are numbers |
| EndToEnd.UndisturbedIff | adapter/merger/stream.v1.go:80-92 | The condition of the theorems on order, that list and counter were not given up, said of what was read, what arrived and when |
| EndToEnd.UndisturbedAloneIff | adapter/merger/stream.v2.go:113-128 | The same for the loop of one endpoint, whose gaps are counted from the packet with which it began |
| Restart.RestartLosesExactly | adapter/merger/stream.v1.go:55-78 | Exactly which packets an eviction costs: numbers begin at 1 again, and of the packets arriving in order after it the i-th is dropped if the list had handed over number i before or an old message of that number waits; every other one is handed over at once |
| Restart.AcknowledgedAndLost | adapter/server/udp.go:162-169 | In every run such a packet is acknowledged all the same: its pair is handed over or buffered by the accumulator although the stream drops it |
| Restart.TakenIsAcknowledged | adapter/ack/ack.go:74-96 | In every run, every message the accumulator has taken is named by a batch or still buffered, whatever the stream does with it |
| Restart.NumbersBeginAgain | adapter/wiface/iface.go:135-155 | A run in which numbers begin again: a hundred endpoints, silent for longer than the time to live, lose their counters, and the next packet of any of them is number 1 again |
| Completion.DeliveryCanCompleteIff | adapter/merger/stream.v1.go:37-93 | When delivery can still be completed, whatever was lost, doubled, delayed or reordered: if nothing more is read for an endpoint whose counter was not evicted or exhausted, some continuation delivers everything read for it, in order, under given clock readings exactly when what waits in the channel, taken in order at those readings, causes no flush, and every packet was received or something is left that carries it: a datagram on its way, a goroutine whose timer can still fire in time or is about to start, or a handler that has not had it |
| Completion.CompletableCanComplete | adapter/merger/stream.v1.go:37-93 | One half with the continuation: the channel is emptied, and then packet after packet is sent or sent again, received and merged |
| Completion.LongHeadBlocksCompletion | adapter/merger/stream.v1.go:80-92 | A state in which it cannot: a packet that is not the first, longer than the limit, is next in the channel; for no clock readings does any continuation deliver everything, even if the first packet can still be received |
| Completion.UnreachableStays | adapter/retry/retry.go:156-188 | A packet that was not received and that nothing carries is never received, in any continuation in which nothing is read for its endpoint |
| Completion.NextNeverFlushes | adapter/merger/stream.v1.go:55-92 | Handing the stream the next message, or one it has had, never makes it flush, whatever the clock and the limits |
| Recovery.EntryCanBeSettledIff | adapter/retry/retry.go:156-188 | When an entry of the retry table can still be settled, if nothing more is read for its endpoint and the limit for acknowledgements holds one pair and fits a payload: exactly while something carries its packet (as above), or its acknowledgement waits for the accumulator, is buffered there, or is on its way |
| Recovery.HopefulCanBeSettled | adapter/ack/ack.go:64-123 | One half with the continuation: received if need be, taken from the channel after the messages before it, batched, encoded, sealed, decoded and removed, each acknowledgement sent once, under the same limit, for any clock readings, waiting times, random draws and iteration orders of the accumulator |
| Recovery.HopelessStays | adapter/retry/retry.go:156-188 | The other half over whole runs: once nothing carries the packet or its acknowledgement, nothing will, and the entry stays in the table |
| Recovery.GivenUpIsStuck | adapter/retry/retry.go:141-164 | A run that ends there: a packet is sent and stored, its datagram is lost and its goroutine ends; the entry stays in the table for good |
| Carriers.StepUncarried | adapter/retry/retry.go:156-188 | No step of either peer or of the network makes anything carry a packet again that nothing carries, unless it reads a packet of the endpoint |
| Carriers.ResendAdvances | adapter/retry/retry.go:156-188 | A goroutine sends its datagram again only within the time limit, and then waits until it is older |
| Carriers.HandledNames | adapter/ack/ack.go:82-91 | What the accumulator holds and hands over after an event is what it held before and the event's own pair; nothing is left out once the limit holds one pair |
| Carriers.PacketIsTakenIff | adapter/server/udp.go:72-134 | A packet's datagram is taken in exactly when its encoded contents are nonempty and no longer, padded, than a full payload; then number, session and contents are those sent |
| Recovery.BatchGetsThrough | pkg/codec/tapir.go:340-379 | Every batch the accumulator can produce under a size limit no larger than a payload is encoded, sealed and read back as itself |
| ProtocolRuns.AlwaysInv | adapter/server/udp.go:136-173 | What every step of the two peers keeps: received packets are genuine, stream and accumulator take them in order and once, whatever left the table was received, what is kept to be sent again shows the packet it is kept for, every datagram on its way shows only packets read or batches accumulated |
| ProtocolRuns.BatchIsEarned | adapter/ack/ack.go:64-96 | Whatever pair a flushed batch names was received by the peer that flushed it |
| Protocol.DataIsMeaningful | adapter/server/udp.go:192-231 | A packet's datagram shows that packet's number, session, contents and endpoint, or is rejected, for every compression and any filler |
| Protocol.AcksAreMeaningful | adapter/ack/ack.go:98-123 | An acknowledgement's datagram shows exactly the batch it was made from, or is rejected; it is shown whenever the batch is no larger than a payload |
| Peers.ReceivingNeverPanics | adapter/server/udp.go:93-173 | In every run, no datagram the network may hold makes the receive loop of the other side panic: no partial block, no index out of range, no acknowledgement without its set |
| Peers.ForeignChangesNothing | adapter/server/udp.go:58-80 | A datagram that cannot be read, is of another session or is no data message changes nothing in either direction |
| Peers.PacketIsPassedOn | adapter/server/udp.go:116-173 | A packet of the session is passed on with its number, its endpoint, the length its header announces and its contents, and nothing else changes |
| Peers.AcknowledgementTakesOut | adapter/retry/retry.go:94-127 | An acknowledgement of the session takes exactly what it names out of the table, and nothing else changes |
| Peers.WhenItPanics | adapter/server/udp.go:109-163 | Contents that are not full blocks make the loop panic, and so does an acknowledgement that is no data message |
| Peers.Peer.Receive | adapter/server/udp.go:49-173 | The loop body on its buffer has the effect of the protocol's arrival step on retry table and stream channel, queues an acknowledgement for exactly the packets it passes on, and says exactly when it would panic |
| Peers.LoopIsArrival | adapter/server/udp.go:136-173 | The arrival step of the protocol model is the loop's effect on the two directions of a peer |
| Reorder.StepKeepsInv | adapter/merger/wlist.go:82-160 | One message keeps the state invariant over the whole 32-bit domain, wrap included: sorted, no 0 and not the next ID waiting, all above the last one sent unless that was the largest, size within the limit |
| Reorder.RunKeepsInv | adapter/merger/wlist.go:82-160 | The invariant holds after every run of either variant |
| Delivery.SessionDeliveryIsExact | adapter/merger/stream.v1.go:55-78 | Without a flush and below the largest ID the output is exactly 1..n, n the largest such that all of 1..n were received, each the first arrival under its ID, and everything else received waits |
| Delivery.NeverFlushesIffNoHole | adapter/merger/stream.v1.go:80-92 | Below the largest ID a session list has never flushed exactly when its output counts 1, 2, 3 and so on without a hole: what a flush skips is never delivered |
| Delivery.EndpointDeliveryIsExact | adapter/merger/stream.v2.go:87-107 | The same for one loop per endpoint, from the first nonzero ID received on |
| Delivery.SessionOutputDependsOnTheSetOnly | adapter/merger/stream.v1.go:55-78 | Two arrival sequences of the same messages, in any order and with any duplicates, give the same output |
| Delivery.DeliveryIsOrdered | adapter/merger/wlist.go:75-80 | In every run, flushes included, each delivered ID exceeds the one before unless that one was the largest 32-bit number |
| Delivery.DeliveryIsAtMostOnce | adapter/merger/stream.v1.go:55-63 | Below the largest ID nothing is delivered twice, flushes included |
| Delivery.DeliveryIsAtMostOnceIff | adapter/merger/stream.v1.go:55-63 | For either variant and every configuration: no run on a set of IDs delivers one of them twice exactly when the largest 32-bit number is not among them |
| Delivery.AfterLargestIdOldIdsReturn | adapter/merger/stream.v2.go:87-97 | An example of what happens beyond it: an ID is delivered before the largest one and again after it |
| Delivery.DeliveryConserves | adapter/merger/wlist.go:121-160 | In every run the multiset of accepted messages is that of the delivered ones plus that of the waiting ones |
| Delivery.NothingIsInvented | adapter/merger/wlist.go:82-160 | Whatever was delivered or waits has arrived |
| Delivery.DeliveryKeepsFirsts | adapter/merger/stream.v1.go:55-63 | Below the largest ID, flushes included, whatever is delivered or waits is the first arrival under its ID, and every ID received is at or below the last one sent or waits |
| Delivery.WaitingIsBounded | adapter/merger/stream.v1.go:80-92 | With a clock that advances, whenever a message had to be filed, all that still waits was accepted less than the time limit ago |
| Delivery.RoomyRunsNeverFlush | adapter/merger/stream.v1.go:80-92 | Payloads that fit the waiting list together and come within the time limit of one another never cause a flush |
| Backlog.NeverFlushesIff | adapter/merger/stream.v1.go:80-92 | For either loop, a list never flushes exactly when, at every arrival that opens or widens a gap, what lies above the contiguous run fits the limit and the gap is younger than the time limit: a condition on the arrivals alone, for runs of any length; the run begins at 1, or for one endpoint's loop at the first nonzero ID |
| Backlog.WaitingIsAbove | adapter/merger/stream.v1.go:55-92 | What waits is what was received above the contiguous run: the last ID sent is its end, the list is empty exactly when there is no gap, and the sizes agree |
| Backlog.LongHeadIsGivenUp | adapter/merger/stream.v1.go:80-92 | A message that comes first, is not number 1 and is longer than the limit is handed over at once, whatever comes after |
| Backlog.OldGapIsGivenUp | adapter/merger/stream.v1.go:80-92 | Two messages that fit are handed over without number 1 when the time limit passes between them |
| Streams.EndpointsDoNotInterfere | adapter/merger/stream.v1.go:16-43 | For every interleaving and every sequence of clock readings, flushes included, the output of one endpoint is that of a lone list fed that endpoint's messages |
| Merger.FindPosition | adapter/merger/wlist.go:85-111 | The insertion scan with its wrapping subtraction finds the sorted position over the whole 32-bit domain; it finds none exactly when the largest waiting ID is the one to insert |
| Merger.WaitingList.Push | adapter/merger/wlist.go:82-119 | Files the message in order; the list, its ID set, its size and its timestamp afterwards; it fails exactly when the last one waiting has the same ID |
| Merger.WaitingList.Drain | adapter/merger/wlist.go:132-140 | The draining loop sends precisely the contiguous run at the front and keeps ID set and size in step |
| Merger.WaitingList.Pop | adapter/merger/wlist.go:121-151 | Whole effect of popping: nothing, or the request and then the contiguous run, and the list that is left |
| Merger.WaitingList.Reset | adapter/merger/wlist.go:153-160 | A flush sends everything waiting in order and leaves an empty, consistent list |
| Merger.WaitingList.Send | adapter/merger/wlist.go:75-80 | Hands the message over and records it as the last one sent |
| Merger.Accept | adapter/merger/stream.v1.go:55-92 | With every branch of the loop body kept, handling a message on a list that satisfies the invariant computes the specified step; the fatal sort error and the draining of a new message are unreachable |
| Merger.InsertAt | adapter/merger/wlist.go:86-108 | Inserting at the position found is inserting in ID order |
| StreamLoops.SessionStream.GetWaitingList | adapter/merger/stream.v1.go:26-35 | One list per endpoint, made on first use, others untouched |
| StreamLoops.SessionStream.Handle | adapter/merger/stream.v1.go:37-92 | One message changes only its own endpoint's list and what is handed over, as specified, and never ends in the fatal error |
| StreamLoops.StreamSession | adapter/merger/stream.v1.go:11-94 | The whole loop hands over what the specification of its run says, up to the nil message that stops it |
| StreamLoops.StreamEndpoint | adapter/merger/stream.v2.go:47-138 | The whole loop hands over what a run on its own messages gives, up to the place where it stops: the end of the session, or an idle check with the time to live or more since the latest own message, or with none yet; both are said of the events alone |
| StreamLoops.TakenIsOwn | adapter/merger/stream.v2.go:51-91 | What the loop takes are exactly its own messages before that place; messages of others neither count nor keep it alive |
| StreamLoops.LivelyLosesNothing | adapter/merger/stream.v2.go:51-59 | A stream whose session goes on, and of which every idle check finds a message that came less than the time to live ago, loses none of its messages |
| Datagram.DatagramRoundTrip | adapter/server/udp.go:72-134 | Full characterisation for messages with payload: the receiver recovers type, IDs, flags, applied compression and payload exactly when the encoded payload is readable, nonempty and within the limit; otherwise which of three errors it rejects with |
| Datagram.ControlRoundTrip | adapter/server/udp.go:271-294 | Keepalive and reset messages arrive with their header; an error code attached to one is announced but not recovered |
| Datagram.SplitSucceeds | adapter/server/udp.go:72-84 | The length check passes exactly when the announced length is that of the sealed payload, and the split gives header and payload back |
| Datagram.TooLongIsRejected | pkg/codec/tapir.go:197-204 | A payload that is too long is cut by the receive buffer and refused by the header check |
| Datagram.EmptyIsRejected | adapter/server/udp.go:72-80 | An empty payload announces a block that is not sent and fails the length check |
| Datagram.SealMessage | adapter/server/udp.go:192-218 | Marshalling, encryption of header and payload and concatenation give the specified datagram |
| Datagram.ReceiveUDP | adapter/server/udp.go:35-134 | Reading from the reused buffer gives what the specification makes of the bytes read |
| Datagram.KeysAreSeparate | adapter/server/udp.go:192-218 | Headers go under the shared key; user data goes under the key of the session and under it alone, every other payload under the shared key |
| Datagram.OneKeyReads | adapter/server/udp.go:93-108 | What user data is taken for depends on the key of the session alone, what anything else is taken for on the shared key alone |
| Datagram.UserDataIsDecrypted | adapter/server/udp.go:93-117 | User data is decrypted with the key of the session and parsed, or which error comes of it |
| Datagram.TakenIsWhole | adapter/server/udp.go:72-91 | What is taken in has a header that decrypts under the shared key and exactly the length this header announces, at most that of a full payload |
| Codec.PayloadRoundTrip | pkg/codec/tapir.go:209-294 | Fields, compressed data, acknowledgements and error codes are read back whatever filler follows, exactly when the payload is readable |
| Codec.HeaderRoundTrip | pkg/codec/tapir.go:165-207 | The header of any message is read back, or rejected exactly for an unknown type or an excessive length |
| Codec.FlagsRoundTrip | pkg/codec/tapir.go:38-46 | The flag byte is a faithful encoding of error, acknowledgement, request and compression |
| Codec.Marshal | pkg/codec/tapir.go:68-163 | The header written in place and the payload chosen by type are the specified ones, errors included |
| Codec.UnmarshalHeader | pkg/codec/tapir.go:165-207 | Sets each field, or fails, as specified |
| Codec.UnmarshalPayload | pkg/codec/tapir.go:209-294 | Each message type is read, or fails, as specified, including the panic of an empty one-byte field |
| Layout.HeaderIsWritten | pkg/codec/tapir.go:68-163 | Position by position what a header holds: type, flag bits, number, session and the length of the encrypted payload, the most significant byte first |
| Layout.HandshakesAreWritten | pkg/codec/tapir.go:92-124 | Which fields stand in an authentication request, an answer and a handshake, each behind its length, in which order, with which filler behind them |
| Layout.DataIsWritten | pkg/codec/tapir.go:125-157 | Data goes out compressed exactly when that was asked for and pays, acknowledgements as their entries, an error code alone |
| Layout.WritingFailsIff | pkg/codec/tapir.go:92-157 | A message is not written exactly when its payload does not fit its type, a field is longer than 254 bytes, there is no room for filler, or a set is larger than announced |
| Layout.HeaderIsRead | pkg/codec/tapir.go:165-207 | What is made of any bytes that should be a header, each field and each of the three errors |
| Layout.HandshakesAreRead | pkg/codec/tapir.go:221-262 | What is made of any bytes that should be an authentication or a handshake: as many fields as there should be, whatever follows them, or one of three errors |
| Layout.DataIsRead | pkg/codec/tapir.go:213-219 | What is made of any other payload: error code, acknowledgements, decompressed data or the bytes as they are |
| Fields.FieldsRoundTrip | pkg/codec/tapir.go:296-326 | Length-prefixed fields are parsed back before any suffix |
| Fields.FieldsFailIff | pkg/codec/tapir.go:298-301 | Writing fields fails exactly when one is longer than 254 bytes |
| Fields.FillerFits | pkg/codec/tapir.go:328-338 | Filler never makes data reach the payload size |
| Fields.MarshalBytes | pkg/codec/tapir.go:296-306 | The loop writes each field after its length, or fails at the first that is too long |
| Fields.UnmarshalBytes | pkg/codec/tapir.go:308-326 | The reslicing loop reads at most n fields and fails on a length beyond the data |
| Fields.AddFakeData | pkg/codec/tapir.go:328-338 | Data followed by random filler, or the panic when no room is left |
| Fields.ReadIsExact | pkg/codec/tapir.go:308-326 | Reading any byte string: the fields into which it splits, unless one is cut short before there are enough |
| Fields.FillerIsDrawn | pkg/codec/tapir.go:328-338 | The filler is as long as the first draw says, within the room that is left, and consists of the other draws |
| AckCodec.AcknowledgementRoundTrip | pkg/codec/tapir.go:340-379 | Decoding undoes encoding for every order in which the map may iterate, and the length is the size accounted for |
| AckCodec.MarshalAcknowledgement | pkg/codec/tapir.go:340-353 | The in-place loops write the entries one after the other; they panic exactly when the set is larger than its announced size |
| AckCodec.UnmarshalAcknowledgement | pkg/codec/tapir.go:355-379 | The reading loops compute the decoding of any byte string and never index out of range |
| AckCodec.DecodeIsExact | pkg/codec/tapir.go:355-379 | A byte string is read exactly if it consists of entries, one or more, the last with a list that is not empty; of two entries of an endpoint the later one counts |
| AckCodec.EncodeConsists | pkg/codec/tapir.go:340-353 | What is written are the entries in the order in which the map iterates, each number with its most significant byte first |
| Encryptor.DecryptAfterEncrypt | pkg/encryptor/aes.ecb.go:34-83 | Whatever is encrypted decrypts to itself, with a ciphertext of the length announced beforehand, for every block cipher with an inverse |
| Encryptor.UnpadAfterPad | pkg/encryptor/aes.ecb.go:97-110 | Unpadding undoes padding on every input (section 6.3 of RFC 5652) |
| Encryptor.PadAfterUnpad | pkg/encryptor/aes.ecb.go:103-110 | Padding undoes unpadding exactly on well-padded data, because only the last byte is checked |
| Encryptor.PadLength | pkg/encryptor/aes.ecb.go:85-101 | Padded length is the computed length: the next full multiple of the block size |
| Encryptor.BlocksInverse | pkg/encryptor/aes.ecb.go:59-71 | Block-wise decryption inverts block-wise encryption |
| Encryptor.CryptBlocks | pkg/encryptor/aes.ecb.go:130-142 | Both block loops write each block in place and leave the rest alone; they panic exactly on partial blocks or a short output |
| Encryptor.Encrypt | pkg/encryptor/aes.ecb.go:73-83 | Pads and encrypts; fails exactly on empty data |
| Encryptor.Decrypt | pkg/encryptor/aes.ecb.go:34-49 | Decrypts and unpads; nil input, partial blocks and bad padding as specified |
| Encryptor.EncryptedIs | pkg/encryptor/aes.ecb.go:130-142 | Data is filled up to full blocks with 1 to 16 bytes that say how many they are, and each block of 16 bytes is encrypted on its own |
| Encryptor.DecryptedIs | pkg/encryptor/aes.ecb.go:34-49 | Full blocks are decrypted one by one and as many bytes taken off as the last one says, or which of three errors |
| Acknowledgements.BatchingConserves | adapter/ack/ack.go:64-96 | With room for one acknowledgement (13 bytes), for any pushes and timeouts, the IDs of all batches followed by the buffered ones are those pushed, per endpoint, each as often and in order |
| Acknowledgements.BatchingConservesIff | business/entity/ack.go:49-64 | Acknowledgements survive batching exactly when the size limit holds one of them |
| Acknowledgements.BatchesFit | business/entity/ack.go:49-64 | Every batch is nonempty, at most the size limit when encoded in whatever order, and no list has more than 255 IDs |
| Acknowledgements.WaitingTimeHandsOver | adapter/ack/ack.go:83-91 | When the waiting time expires, or an acknowledgement comes that late, everything pushed so far has been handed over |
| Acknowledgements.TooSmallLosesAll | business/entity/ack.go:51-58 | Below that limit nothing is ever stored or sent |
| Acknowledgements.PushKeepsFits | business/entity/ack.go:49-64 | The running size stays the encoded size, whatever the order of encoding, and within the limit |
| Acknowledgements.MessageAcknowledgement.Push | business/entity/ack.go:49-64 | Adds the ID exactly when there is room for it; the new set and size |
| Acknowledgements.MessageAcknowledgement.Reset | business/entity/ack.go:66-69 | Empties the set |
| Acknowledgements.Accumulate | adapter/ack/ack.go:64-96 | The accumulator loop hands over and buffers what the specification of its wake-ups up to the cancellation says; the row below says what that is |
| Acknowledgements.HandsOverExactly | adapter/ack/ack.go:74-96 | A set is handed over at an event exactly when the waiting time expires with something held, there is no room in bytes or in the counter of the list, or the waiting time has passed since the first clock reading after the latest hand-over; the set has the acknowledgements held until then; all of it said of the events alone |
| TcpFraming.StreamRoundTrip | adapter/server/tcp.go:72-123 | However reads split the stream, the frames found are a prefix of the frames sent, and all of them once the stream is read |
| TcpFraming.ReceiveTCP | adapter/server/tcp.go:72-123 | What the loop delivers is determined by the bytes consumed alone, whatever chunks and errors come; as far as the framing goes it returns exactly on a header that cannot be read, at the end of the stream, or on a lost connection while less than a header has come, and at no other outcome; it goes on reading otherwise |
| TcpFraming.ErrorsNeverEnd | adapter/server/tcp.go:73-81 | When it returns: the end of the stream makes it, unless a bad header did before; errors that are neither the end nor a lost connection never do, however many there are |
| TcpFraming.ReadPayload | adapter/server/tcp.go:110-123 | Fills the payload buffer from whatever chunks come; it gives up exactly at the end of the stream, after any other error it reads again |
| TcpFraming.ReadHeader | adapter/server/tcp.go:73-84 | Collects one header from whatever chunks come; it gives up exactly at the end of the stream or the loss of the connection, after any other error it reads again |
| TcpFraming.FramesGrow | adapter/server/tcp.go:72-123 | More bytes never change the frames already found |
| TcpFraming.WireIsOneFrame | adapter/server/tcp.go:173-200 | A message is found as its own frame exactly when its header announces the bytes that follow; an empty data payload is not |
| TcpFraming.FrameRoundTrip | adapter/server/tcp.go:130-162 | Behind the framing a carried message is recovered as from a datagram |
| TcpFraming.SendTCP | adapter/server/tcp.go:173-217 | However little each write takes, the stream grows by exactly the message; only a failed write makes it stop, and leaves a proper prefix of it |
| TcpFraming.WireIsSent | adapter/server/tcp.go:199-210 | What sending writes is the message's part of the stream that the receiver reads |
| Retransmission.Retry.Ack | adapter/retry/retry.go:94-127 | Takes out exactly the entries named, leaves every other entry as it was, and stops each goroutine concerned once, however often an ID is repeated |
| Retransmission.Retry.Push | adapter/retry/retry.go:82-92 | Stores the datagram under endpoint and ID |
| Retransmission.Retry.Finish | adapter/retry/retry.go:142-145 | The goroutine's deferred delete works on the message already reset, so only the blank key is deleted |
| RetryTimer.KarnsRule | adapter/retry/retry.go:94-108 | Karn's rule (section 3 of RFC 6298) under every interleaving of timer, resending, counting, resetting and acknowledging: a round trip is used only of a message transmitted once, and it is never transmitted again |
| RetryTimer.SampledExactlyWhenClean | adapter/retry/retry.go:101-105 | While the goroutine still waits, an acknowledged message gave a sample exactly if it went out once and its timer was stopped before it fired |
| RetryTimer.RetransmissionsAreBounded | adapter/retry/retry.go:156-188 | k retransmissions imply k*rto + k(k-1)/2 seconds below the maximum timeout, rto being the value at the push |
| RetryTimer.TickInTimeResends | adapter/retry/retry.go:158-173 | Under every interleaving a tick that is taken leads to another transmission exactly if it came within the time limit |
| RetryTimer.StoppedIsNotResent | adapter/retry/retry.go:94-108 | Under every interleaving a message is not sent again once its running timer was stopped, its goroutine saw the signal or the end of the session, or a tick came too late |
| RetryTimer.UnansweredIsResent | adapter/retry/retry.go:156-188 | A message that is not acknowledged is sent once more with every tick in time, and the timer then runs for the timeout and all increments so far |
| RetryTimer.LateTickEnds | adapter/retry/retry.go:158-164 | The first tick past the time limit is the end of it, whatever happens later |
| RetryTimer.AlwaysTracked | adapter/retry/retry.go:141-195 | In every schedule transmissions are one more than attempts counted or about to be, and a stop that found the timer running froze the entry |
| Rto.Estimated | adapter/retry/retry.go:197-215 | For samples in [lo, hi], lo > 0: srtt in [lo, hi], rttvar in [0, max(hi/2, hi-lo)], lo <= rto <= 5*hi up to rounding down, and no division by zero |
| Rto.ConstantSamples | adapter/retry/retry.go:197-215 | For a constant round trip c the n-th timeout is c + 2c(3/4)^(n-1) |
| Rto.GainsFollowChange | adapter/retry/retry.go:203-214 | How far a sample moves mean and variance, as a function of its relative change to the one before: from an eighth to a quarter of the way, and from a quarter to nothing |
| Rto.UnchangedSample | adapter/retry/retry.go:203-210 | A sample like the one before has the weights 1/8 and 1/4 |
| Rto.DoubledSample | adapter/retry/retry.go:203-210 | A sample at least twice the one before has the weight 1/4, and leaves the variance alone |
| Rto.BiggerChangeWeighsMore | adapter/retry/retry.go:203-210 | Of two estimates with the same mean, the one whose sample changed more moves at least as far and ends at least as close to it |
| Rto.Estimator.UpdateRTO | adapter/retry/retry.go:197-215 | Assigning the fields one after the other computes the specified estimate |
| Keepalive.DisconnectIsEarned | adapter/retry/retry.go:217-249 | In every run a connection is given up at most once and last, right after exactly the configured number of probes with no traffic between, and not before the timeout and that many intervals since the last traffic and the start |
| Keepalive.SilenceDisconnects | adapter/retry/retry.go:235-246 | From every reachable running state, silence past the timeout is answered by one probe a tick while any are left and then ends the connection |
| Keepalive.WakesAct | adapter/retry/retry.go:226-246 | In every run: traffic is heard, and answered exactly if it asks for that; a tick does nothing within the timeout of the start or of the last traffic, else sends a probe if fewer than the configured number were sent since, else gives up |
| Keepalive.WakesStartInterval | adapter/retry/retry.go:234-237 | Every wake-up starts the interval again |
| Keepalive.Loop | adapter/retry/retry.go:217-249 | The loop marks traffic, probes and disconnection as specified |
| Numbering.NumbersAreConsecutive | adapter/wiface/iface.go:99-107 | Each packet of an endpoint is numbered one after the previous one, or 1 after more than the TTL of silence |
| Numbering.FirstNumberIsOne | adapter/wiface/iface.go:99-107 | The first packet of an endpoint is number 1 |
| Numbering.NumberIsCount | adapter/wiface/iface.go:99-107 | Without eviction the next number is one more than the packets so far |
| Numbering.NumberIsBounded | adapter/wiface/iface.go:99-107 | Evictions included, the next number is at least 1 and at most one more than the packets so far, while those are fewer than the numbers there are |
| Numbering.ChattyIsNeverEvicted | adapter/wiface/iface.go:135-144 | An endpoint whose latest packet is never more than the TTL ago when the clock is looked at keeps its counter, however long it stays active; so does every endpoint when eviction is off |
| Numbering.CounterOrSilence | adapter/wiface/iface.go:135-144 | An endpoint still has the counter of its latest packet unless it was silent for more than the TTL |
| Numbering.ThresholdStaysUp | adapter/wiface/iface.go:145-154 | The eviction threshold never falls below 100 |
| Numbering.ThresholdAdapts | adapter/wiface/iface.go:146-154 | The threshold rises exactly when nothing was evicted, and falls by no more than what was found or one increment |
| Numbering.ReadIsExact | adapter/wiface/iface.go:135-154 | What a packet does in any run: there is no look at the clock unless the counters reach the threshold; then exactly those stay that were used no more than the time to live ago, and the threshold rises by ten, falls by ten, or falls to 100 |
| Numbering.ThresholdIsRound | adapter/wiface/iface.go:145-154 | The threshold is always a multiple of ten, so that the branch that lowers it by one is never taken |
| Listener.Listen | adapter/wiface/iface.go:109-157 | The read loop issues the numbers that the specification gives, one for each packet, so that the properties of numbers are properties of its output, whatever objects the pool hands out again |
| Listener.ReadPacket | adapter/wiface/iface.go:128-155 | One turn: the number, the table after eviction and the threshold as specified, and the length variable equal to the map's size |
| Listener.EndpointTable.GetMessageID | adapter/wiface/iface.go:99-107 | Counts the endpoint's own counter object, taking one from the pool if need be |
| Listener.EndpointTable.EvictSilent | adapter/wiface/iface.go:136-145 | In whatever order the map iterates, exactly the silent endpoints go, and their number is counted |
| Listener.EndpointTable.CountersAreNotShared | adapter/wiface/pool.go:21-29 | No two live endpoints share a counter object and none in the pool is live |
| Listener.EndpointSequencePool.Get | adapter/wiface/pool.go:21-23 | Hands out a zeroed object that no endpoint owns, and keeps it no longer |
| Listener.EndpointSequencePool.Put | adapter/wiface/pool.go:25-29 | Takes the object back zeroed and without owner |
| TableRuns.AlwaysConsistent | business/usecase/server.sessions.go:11-119 | Over every run of authentication, handshake, disconnection and reset, clients and sessions are mutually inverse, no session is 0, and sessions with an interface match the live interfaces one to one, while names are fresh and a connection that is reported gone carries its own session; both conditions can fail in the code, as the runs below show |
| TableRuns.BadHeaderBreaksTables | adapter/server/udp.go:48-91 | Why it must: a run in which a datagram that cannot be read, from the address of an authenticated client, has its connection reported gone under session 0; the interface goes, the session stays and passes the session check, and the next authentication panics |
| TableRuns.AlwaysAddressed | business/usecase/server.interfaces.go:60-87 | Over every run the four-address blocks of live interfaces are disjoint, start at the first address modulo 4, and lie within the first 4n addresses after n creations |
| TableRuns.CreatesIff | business/usecase/server.interfaces.go:13-58 | A creation is counted exactly when the new interface is there afterwards |
| TableRuns.ReusedNameBreaksTables | business/usecase/server.connections.go:47-68 | Why names must be fresh: a run in which a reused interface name lets one client's disconnection take away another client's interface |
| Tables.InterfaceKeepsConsistentIff | business/usecase/server.interfaces.go:43-45 | A new interface keeps the tables consistent exactly when its name is nonempty and not in use |
| Tables.DisconnectKeepsConsistentIff | business/usecase/server.connections.go:44-69 | A disconnection keeps them consistent exactly when the interface left without connections belongs to the session the connection names |
| Tables.DropKeepsConsistent | business/usecase/server.sessions.go:84-119 | Dropping a session keeps the three tables consistent |
| Tables.CreateKeepsConsistent | business/usecase/server.sessions.go:11-33 | Creating a session for a client keeps them consistent and gives the client one |
| Tables.ConsistentNeverPanics | business/usecase/server.go:213-249 | With consistent tables authentication never panics, whatever the request |
| Tables.PanicsIff | business/usecase/server.go:241-241 | As long as clients and sessions belong together it panics exactly when the session it is to use, or would have to drop, names an interface that is not there |
| TableRuns.AlwaysAuthorised | business/usecase/server.go:213-226 | Over every run, each connection entered for a session has authenticated as the client for whom that session was made, and as its user, except where the next row applies |
| TableRuns.SessionChangesHands | business/usecase/server.sessions.go:92-97 | A run in which it does: a client whose interface could not be made comes back as another user, and gets its connection entered for the session of the first |
| Tables.StrangersAreRefused | business/usecase/server.sessions.go:35-46 | A request for a session that is not there, or is of another client or user, changes nothing |
| Tables.OwnersAreAdmitted | business/usecase/server.go:217-249 | A client and user that ask for their own session get their connection entered for it and for its interface |
| Tables.NewSessionIsNew | business/usecase/server.go:213-216 | Asking for a new session gets one under the ID drawn, made out to client and user, with the old one gone, unless that one has no interface |
| Tables.MadeIsEntered | business/usecase/server.interfaces.go:13-58 | A new session whose interface could be made has it, with its block and nothing on it yet, and the connection is entered for both |
| Tables.UnmadeEntersNothing | business/usecase/server.go:232-239 | A session whose interface could not be made gets no connection |
| Tables.ResetEnds | business/usecase/server.go:353-364 | A reset ends the session the connection was authenticated for, with all that is its own but the connections, and nothing else |
| Tables.HandshakeJoins | business/usecase/server.interfaces.go:102-121 | A handshake puts the connection at the interface it was authenticated for; others of another session, protocol or port stay there |
| Tables.DisconnectTakesOne | business/usecase/server.connections.go:40-71 | A disconnection takes the connection away, and with the last one of an interface the session; all other connections stay |
| Tables.EnteredDisplaces | business/usecase/server.connections.go:22-31 | A connection that is entered displaces those of its session, protocol and port, and no other |
| Tables.StrategiesPick | business/usecase/server.interfaces.go:129-137 | By hash the connection follows the endpoint, whatever is drawn; by chance it follows the draw, whatever the endpoint |
| Routing.PacketsStayInTheirSession | business/usecase/server.interfaces.go:123-148 | Over every run, whatever strategy picks, a packet read from an interface leaves by a connection of the session that owns the interface, while handshakes carry their own session |
| Routing.GoneIsRoutedIff | business/usecase/server.connections.go:40-71 | Over every run: a connection that went away can still be picked for an interface exactly when it was among its connections and was not remembered as reaching it, as when a newer one had displaced it |
| Routing.DisplacedStays | business/usecase/server.connections.go:22-31 | A run in which that happens: a connection displaced by a newer one of its session goes away, and every later packet leaves by it, whatever is drawn, even when no connection is left |
| Routing.HandshakeKeepsRoutedIff | business/usecase/server.interfaces.go:102-121 | A handshake keeps packets in their session exactly when it does not name another session than the one authenticated |
| Routing.AlwaysOrderly | business/usecase/server.connections.go:22-31 | Over every such run no two remembered connections share session, protocol and port, and no two of an interface share protocol and port |
| ServerTables.ServerUseCase.CreateSession | business/usecase/server.sessions.go:11-33 | Returns the client's session, or a nonzero ID that no session has, with both tables updated |
| ServerTables.ServerUseCase.DropSession | business/usecase/server.sessions.go:84-119 | Removes session, client and interface together, or nothing when the interface is gone |
| ServerTables.ServerUseCase.DropSessionByID | business/usecase/server.sessions.go:48-63 | Drops the session, or reports that there is none |
| ServerTables.ServerUseCase.DropSessionByClientID | business/usecase/server.sessions.go:65-82 | Drops the client's session, or reports that there is none; panics exactly when the client's session is missing, which consistent tables exclude |
| ServerTables.ServerUseCase.GetTunnelIP | business/usecase/server.interfaces.go:60-87 | In whatever order the map iterates, finds the highest address in use and the block after it |
| ServerTables.ServerUseCase.CreateInterface | business/usecase/server.interfaces.go:13-58 | Keeps the session's interface or makes one on the next block; nothing changes when it cannot be made; panics exactly when it was made for a session that is missing |
| ServerTables.ServerUseCase.CommandAuthentication | business/usecase/server.go:213-249 | The three tables and the connections after an authentication, on any tables, and when it ends without one; it panics exactly when the client's session is missing, or the session names an interface that is not in the table (server.go:241), and then what the tables are |
| ServerTables.ServerUseCase.CommandHandshake | business/usecase/server.go:281-304 | The connection joins the interface it was authenticated for |
| ServerTables.ServerUseCase.AddConnection | business/usecase/server.connections.go:22-31 | Displaces exactly the connections of the same session, protocol and port |
| ServerTables.ServerUseCase.AddInterfaceConnection | business/usecase/server.interfaces.go:102-121 | Replaces the connection of the same session, protocol and port, or appends |
| ServerTables.ServerUseCase.RemoveConnection | business/usecase/server.connections.go:40-71 | The tables after a disconnection, with interface and session gone when it was the last one |
| ServerTables.ServerUseCase.GetInterfaceConnection | business/usecase/server.interfaces.go:123-148 | A connection of the interface, picked by chance or by the endpoint, or which of three errors |

## Left out

- Sockets, TUN devices, shell commands, configuration, logging, tracing, statistics, the gRPC, HTTP and graphical interfaces: no hard property.
- AES, GCM, ECDH and the LZ4, LZO and ZSTD libraries: a cipher is a pair of inverse functions on 16-byte blocks, a compressor a pair of functions of which decompression inverts a successful compression.
- The exchange of user keys: both peers of a session share their keys from the start; datagrams that come before the keys are agreed, and are dropped, are not modelled.
- Reuse of pooled messages and of the receive buffer by a later message: messages are values once they are parsed.
- Locks and the scheduler: steps are atomic and interleave freely; the endpoint hash is, for each direction, any function of a packet's bytes that both ends share.
- The table of connection controls in the UDP receive loop and its session count, the client's connection list and map, and the shutdown of a stream while messages are pushed.
- The second server (adapter/server/server.v2.go) and the client's adapters, whose framing and receive loops repeat those modelled here.
- The UDP write loop: a datagram is written whole or fails.
- The many connections of a session: the code keeps a retry table and an accumulator for each, the model one of each for a direction, so an acknowledgement may name packets of any connection, and stream and accumulator of a direction take messages in the same order; which connection a packet leaves by is the subject of `Routing`.
- Datagram.ReceiveUDP: leaves out that the connection is reported as gone when a header cannot be read, and that a datagram is dropped while its session has no user key.
- Encryptor.Decrypt: leaves out the error for an input that is neither nil nor bytes, which the codec never passes.
- Retransmission.Retry.Ack: leaves out the round trip sample, which `RetryTimer` and `Rto` model, and the signal to the keepalive loop, which is an event of `Keepalive`.
- Retransmission.Retry.Push: leaves out the timer and the goroutine it starts, which `RetryTimer` models.
- TcpFraming.ReceiveTCP: leaves out what comes after the framing, where the code also returns when the user key cannot be looked up or the receiver fails; knows the connection only as far as its plan of outcomes goes, and says how the loop stands then; a connection that fails for ever is one of which every plan leaves it reading.
- Rto.Estimator.UpdateRTO: computes in reals; rounding of floating point numbers is not modelled.
- Rto.Estimated: the bounds on the timeout hold for whole nanoseconds, after the conversion has rounded down.
- RetryTimer.RetransmissionsAreBounded: each lengthening of the wait is any duration of at least one second, which covers the exponential of the code for a backoff factor that is not negative.
- Peers.Peer.Receive: handles the messages of one session and passes over keepalives, authentication, handshake and reset, which reach neither the retry table nor the stream.
- Recovery.EntryCanBeSettledIff: says when settling is possible, not that it happens, since the network may lose everything. The compression and the filler a packet is sent with, the timeout in force when it is stored and the moment a timer fires are inputs of the steps; how a timeout is computed and how a single timer behaves is the subject of `Rto` and `RetryTimer`.
- Completion.DeliveryCanCompleteIff: likewise says when completion is possible, by some schedule, not that it happens; an endpoint whose counter was evicted is the subject of `Restart`.
- Restart.RestartLosesExactly: for packets that arrive in the order in which they were read after the eviction, each once.
- EndToEnd.DeliveredIsPrefix: speaks of a single stream; a session whose stream was deleted and made again begins a new run.
- ServerTables.ServerUseCase.CommandAuthentication: begins after the password check and leaves out the creation of the stream and the reply; interface, client and user names are numbers, 0 the empty name.
- ServerTables.ServerUseCase.CommandHandshake: leaves out the exchange of keys and its failures.
- ServerTables.ServerUseCase.CreateSession: takes the draws of the random source as a finite sequence and gives up when it is exhausted, where the code draws on.
- TableRuns.AlwaysAddressed: the upper end of the configured address range plays no part, because the code never reads it.
