/**
 Two peers of one session, and the network between them.

 Each peer numbers the packets it reads from its interface, sends them in datagrams,
 keeps what is unacknowledged, and hands what it receives to the acknowledgement
 accumulator and to the stream merger. The network may duplicate, delay and reorder
 every datagram in either direction until it loses it. Each packet is sent once, each
 goroutine resends its own datagram until it ends, and channels are first in, first out.
 */
module Protocol {
  import opened Bytes
  import opened Acknowledgements
  import opened Retransmission
  import AckCodec
  import Codec
  import Datagram
  import Encryptor
  import Fields
  import Numbering
  import Reorder

  datatype Side = Client | Server

  function Other(side: Side): Side {
    if side.Client? then Server else Client
  }

  /** What both peers share. `decode` computes the endpoint of a packet that travels from
      a side, or rejects it: either end of a direction hashes the same of its addresses,
      but the two directions need not agree. */
  datatype World = World(
    codec: Codec.Config, cmp: Codec.Compressor, keys: Datagram.Keys, merger: Reorder.Config,
    maxAck: int, maxTimeout: int, endpointTTL: int, session: u32, decode: (Side, bytes) -> Option<u64>)

  /** Encryption and compression can be undone, lengths fit their 16-bit field, and the
      session is a real one. */
  ghost predicate Sensible(w: World) {
    w.session != 0 && Datagram.Good(w.keys) && Codec.Sound(w.cmp) && 0 < Encryptor.GetLength(w.codec.payloadSize) < 0x1_0000
  }

  // ----- one direction of traffic

  datatype Issued = Issued(endpoint: u64, id: u32, data: bytes)

  function KeyOf(x: Issued): Key {
    Key(x.endpoint, x.id)
  }

  /** A datagram sent, about to be stored for retransmission. */
  datatype Parcel = Parcel(key: Key, datagram: bytes)

  /** A goroutine that resends a datagram: its timer cannot fire before the datagram is
      `due` nanoseconds old. */
  datatype Waiting = Waiting(key: Key, datagram: bytes, due: int)

  /** Packets flowing one way, from a side. The sending peer holds the seven parts that
      follow, the receiving peer the last four. */
  datatype Direction = Direction(
    from: Side,
    packets: seq<Numbering.Packet>,      // read from the interface, with clock readings
    issued: seq<Issued>,                 // the same packets, numbered
    handled: set<nat>,                   // which of them a handler has sent or given up
    outbox: multiset<Parcel>,
    waiting: multiset<Waiting>,
    inFlight: map<Key, bytes>,           // the retry table
    stored: set<Key>,                    // everything it ever held
    received: seq<Reorder.Message>,
    merged: seq<Reorder.Arrival>,        // what the stream has taken from its channel
    acked: nat,                          // how many messages the accumulator has taken
    events: seq<Event>)                  // what the accumulator has been woken by

  function Idle(from: Side): Direction {
    Direction(from, [], [], {}, multiset{}, multiset{}, map[], {}, [], [], 0, [])
  }

  function Batches(w: World, d: Direction): seq<AckData> {
    Batched(w.maxAck, d.events).batches
  }

  // ----- datagrams

  function DataMessage(w: World, x: Issued, kind: u8, level: u8): Codec.Message {
    Codec.BLANK.(id := x.id, sessionID := w.session, typ := Codec.DATA,
                 compressionType := kind, compressionLevel := level, payload := Codec.Raw(x.data))
  }

  function AckMessage(w: World, acks: AckData, size: nat): Codec.Message {
    Codec.BLANK.(sessionID := w.session, typ := Codec.DATA, isACK := true, payload := Codec.Acks(acks, size))
  }

  function KeepaliveMessage(w: World, ack: bool): Codec.Message {
    Codec.BLANK.(sessionID := w.session, typ := Codec.KEEPALIVE, isACK := ack)
  }

  /** The datagram that carries `m`, unless it cannot be encoded or is longer than a
      datagram can be. */
  function Sealed(w: World, m: Codec.Message, rnd: Fields.Random, order: seq<u64>): Option<bytes>
    requires m.payload.Acks? ==> IsOrder(order, m.payload.acks)
  {
    var sent := Datagram.Sent(Codec.Sender(w.codec, w.cmp, rnd, order), w.keys, m);
    if sent.Ok? && |sent.value| < 0x1_0000 then Some(sent.value) else None
  }

  /** What the receive loop makes of an arriving datagram. */
  function Opened(w: World, datagram: bytes): Result<Codec.Message, Datagram.DatagramError> {
    Datagram.TakenApart(w.codec, w.cmp, w.keys, Datagram.Arriving(w.codec, datagram))
  }

  // ----- steps

  /** The direction that starts at a side, and the datagrams that side has sent and the
      network has not lost. */
  datatype State = State(client: Direction, server: Direction, fromClient: set<bytes>, fromServer: set<bytes>)

  const START := State(Idle(Client), Idle(Server), {}, {})

  function From(s: State, side: Side): Direction {
    if side.Client? then s.client else s.server
  }

  function Wire(s: State, side: Side): set<bytes> {
    if side.Client? then s.fromClient else s.fromServer
  }

  function WithDirection(s: State, side: Side, d: Direction): State {
    if side.Client? then s.(client := d) else s.(server := d)
  }

  function WithWire(s: State, side: Side, wire: set<bytes>): State {
    if side.Client? then s.(fromClient := wire) else s.(fromServer := wire)
  }

  function WithDatagram(s: State, side: Side, datagram: bytes): State {
    WithWire(s, side, Wire(s, side) + {datagram})
  }

  /** What was sent, if it could be. */
  function WithSent(s: State, side: Side, datagram: Option<bytes>): State {
    if datagram.Some? then WithDatagram(s, side, datagram.value) else s
  }

  /** `side` is where the step happens, except that a datagram sent by `side` arrives at
      the other one, or is lost on its way there. */
  datatype Step =
    | Read(side: Side, data: bytes, now: int, curTs: int)
    | Transmit(side: Side, i: nat, kind: u8, level: u8, rnd: Fields.Random)
    | Drop(side: Side, i: nat)
    | Store(side: Side, parcel: Parcel, rto: nat)
    | Resend(side: Side, timer: Waiting, age: int, due: int)
    | Finish(side: Side, timer: Waiting)
    | Lose(side: Side, datagram: bytes)
    | Arrive(side: Side, datagram: bytes)
    | Merge(side: Side, pushedAt: int, checkedAt: int)
    | Acknowledge(side: Side, firstNow: int, now: int, wait: int, rnd: Fields.Random, order: seq<u64>)
    | Expire(side: Side, rnd: Fields.Random, order: seq<u64>)
    | Probe(side: Side, ack: bool, rnd: Fields.Random)

  /** What wakes the accumulator next when it takes a message from its channel. */
  function NextAcked(d: Direction, firstNow: int, now: int, wait: int): Event
    requires d.acked < |d.received|
  {
    Acked(d.received[d.acked].endpoint, d.received[d.acked].id, firstNow, now, wait)
  }

  /** The batch that the accumulator hands over when it is woken. */
  function Flushed(w: World, d: Direction, ev: Event): Option<AckData> {
    var before := Batched(w.maxAck, d.events);
    var after := Handled(before, ev);
    if |after.batches| > |before.batches| then Some(after.batches[|before.batches|]) else None
  }

  ghost predicate OrderOfFlushed(w: World, d: Direction, ev: Event, order: seq<u64>) {
    Flushed(w, d, ev).Some? ==> IsOrder(order, Flushed(w, d, ev).value)
  }

  ghost predicate Enabled(w: World, s: State, step: Step) {
    match step
    case Read(side, data, _, _) => w.decode(From(s, side).from, data).Some?
    case Transmit(side, i, _, _, _) => i < |From(s, side).issued| && i !in From(s, side).handled
    case Drop(side, i) => i < |From(s, side).issued| && i !in From(s, side).handled
    case Store(side, parcel, _) => parcel in From(s, side).outbox
    case Resend(side, timer, age, due) => timer in From(s, side).waiting && timer.due <= age < w.maxTimeout && age < due
    case Finish(side, timer) => timer in From(s, side).waiting
    case Lose(side, datagram) => datagram in Wire(s, side)
    case Arrive(side, datagram) => datagram in Wire(s, side)
    case Merge(side, _, _) => var d := From(s, Other(side)); |d.merged| < |d.received|
    case Acknowledge(side, firstNow, now, wait, _, order) =>
      var d := From(s, Other(side));
      d.acked < |d.received| && OrderOfFlushed(w, d, NextAcked(d, firstNow, now, wait), order)
    case Expire(side, _, order) => OrderOfFlushed(w, From(s, Other(side)), Expired, order)
    case Probe(_, _, _) => true
  }

  /** The next packet gets the next number of its endpoint. */
  function Reading(w: World, d: Direction, data: bytes, now: int, curTs: int): Direction
    requires w.decode(d.from, data).Some?
  {
    var endpoint := w.decode(d.from, data).value;
    var id := Numbering.NextID(Numbering.After(w.endpointTTL, d.packets), endpoint);
    d.(packets := d.packets + [Numbering.Packet(endpoint, now, curTs)],
       issued := d.issued + [Issued(endpoint, id, data)])
  }

  /** A handler sends a packet, unless it cannot be encoded. */
  function Transmitting(d: Direction, i: nat, datagram: Option<bytes>): Direction
    requires i < |d.issued|
  {
    var once := d.(handled := d.handled + {i});
    if datagram.None? then once else once.(outbox := d.outbox + multiset{Parcel(KeyOf(d.issued[i]), datagram.value)})
  }

  /** A packet sent goes into the table, and a goroutine of its own starts. */
  function Storing(d: Direction, parcel: Parcel, rto: nat): Direction {
    d.(outbox := d.outbox - multiset{parcel},
       waiting := d.waiting + multiset{Waiting(parcel.key, parcel.datagram, rto)},
       inFlight := d.inFlight[parcel.key := parcel.datagram],
       stored := d.stored + {parcel.key})
  }

  /** Having resent its datagram, a goroutine waits for longer. */
  function Resending(d: Direction, timer: Waiting, due: int): Direction {
    d.(waiting := d.waiting - multiset{timer} + multiset{timer.(due := due)})
  }

  /** The goroutine of a message ends. */
  function Finishing(d: Direction, timer: Waiting): Direction {
    d.(waiting := d.waiting - multiset{timer}, inFlight := d.inFlight - {BLANK_KEY})
  }

  /** The stream takes the next message from its channel. */
  function Merging(d: Direction, pushedAt: int, checkedAt: int): Direction
    requires |d.merged| < |d.received|
  {
    d.(merged := d.merged + [Reorder.Arrival(d.received[|d.merged|], pushedAt, checkedAt)])
  }

  function Woken(d: Direction, ev: Event): Direction {
    d.(events := d.events + [ev], acked := if ev.Acked? then d.acked + 1 else d.acked)
  }

  /** The accumulator of `side` is woken, and sends what it hands over. */
  ghost function Accumulating(w: World, s: State, side: Side, ev: Event, rnd: Fields.Random, order: seq<u64>): State
    requires OrderOfFlushed(w, From(s, Other(side)), ev, order)
  {
    var d := From(s, Other(side));
    var woken := WithDirection(s, Other(side), Woken(d, ev));
    match Flushed(w, d, ev)
    case None => woken
    case Some(acks) => WithSent(woken, side, Sealed(w, AckMessage(w, acks, SizeAlong(acks, order)), rnd, order))
  }

  /** A user packet of this session goes to the accumulator and the merger, if the
      decoder accepts it. */
  function Receiving(w: World, d: Direction, m: Codec.Message): Direction {
    if m.payload.Raw? && w.decode(d.from, m.payload.data).Some? then
      var endpoint := w.decode(d.from, m.payload.data).value;
      d.(received := d.received + [Reorder.Message(m.id, endpoint, m.payloadLength, m.payload.data)])
    else d
  }

  /** An acknowledgement takes what it names out of the table. */
  function Settling(d: Direction, m: Codec.Message): Direction {
    if m.payload.Acks? then d.(inFlight := Unacknowledged(d.inFlight, m.payload.acks)) else d
  }

  /** A datagram sent by `side`, taken apart and dispatched by the other side. */
  function Dispatched(w: World, s: State, side: Side, datagram: bytes): State {
    var r := Opened(w, datagram);
    if r.Err? || r.value.sessionID != w.session || r.value.typ != Codec.DATA then s
    else if r.value.isACK then WithDirection(s, Other(side), Settling(From(s, Other(side)), r.value))
    else WithDirection(s, side, Receiving(w, From(s, side), r.value))
  }

  ghost function Next(w: World, s: State, step: Step): State
    requires Enabled(w, s, step)
  {
    match step
    case Read(side, data, now, curTs) => WithDirection(s, side, Reading(w, From(s, side), data, now, curTs))
    case Transmit(side, i, kind, level, rnd) =>
      var d := From(s, side);
      var datagram := Sealed(w, DataMessage(w, d.issued[i], kind, level), rnd, []);
      WithSent(WithDirection(s, side, Transmitting(d, i, datagram)), side, datagram)
    case Drop(side, i) => WithDirection(s, side, Transmitting(From(s, side), i, None))
    case Store(side, parcel, rto) => WithDirection(s, side, Storing(From(s, side), parcel, rto))
    case Resend(side, timer, _, due) =>
      WithDatagram(WithDirection(s, side, Resending(From(s, side), timer, due)), side, timer.datagram)
    case Finish(side, timer) => WithDirection(s, side, Finishing(From(s, side), timer))
    case Lose(side, datagram) => WithWire(s, side, Wire(s, side) - {datagram})
    case Arrive(side, datagram) => Dispatched(w, s, side, datagram)
    case Merge(side, pushedAt, checkedAt) =>
      WithDirection(s, Other(side), Merging(From(s, Other(side)), pushedAt, checkedAt))
    case Acknowledge(side, firstNow, now, wait, rnd, order) =>
      Accumulating(w, s, side, NextAcked(From(s, Other(side)), firstNow, now, wait), rnd, order)
    case Expire(side, rnd, order) => Accumulating(w, s, side, Expired, rnd, order)
    case Probe(side, ack, rnd) => WithSent(s, side, Sealed(w, KeepaliveMessage(w, ack), rnd, []))
  }

  /** The state after a schedule; steps that are not enabled do not happen. */
  ghost function After(w: World, steps: seq<Step>): State {
    if steps == [] then START
    else
      var before, step := After(w, steps[..|steps| - 1]), steps[|steps| - 1];
      if Enabled(w, before, step) then Next(w, before, step) else before
  }

  // ----- what a datagram means

  /** The packet under this number and endpoint is the one that was read. */
  ghost predicate Genuine(issued: seq<Issued>, endpoint: u64, id: u32, data: bytes) {
    Issued(endpoint, id, data) in issued
  }

  ghost predicate WasIssued(issued: seq<Issued>, id: u32, data: bytes) {
    exists x :: x in issued && x.id == id && x.data == data
  }

  /** The receive loop of the session panics on a datagram: its contents are not full
      blocks, a slice is out of range, or an acknowledgement holds none. */
  predicate Panics(w: World, r: Result<Codec.Message, Datagram.DatagramError>) {
    match r
    case Ok(m) => m.sessionID == w.session && m.typ != Codec.KEEPALIVE && m.isACK && !m.payload.Acks?
    case Err(e) => e == Datagram.CryptFailed(Encryptor.Panic) || e == Datagram.CodecFailed(AckCodec.IndexPanic)
  }

  /** What the receive loop finds in a datagram from a peer that has issued `issued`
      and accumulated `batches`: nothing, a keepalive, one of those sets, or one of
      those packets. In particular the payload always has the type the loop expects. */
  ghost predicate Meaningful(w: World, issued: seq<Issued>, batches: seq<AckData>, datagram: bytes) {
    var r := Opened(w, datagram);
    !Panics(w, r) && (r.Ok? ==>
      && r.value.sessionID == w.session
      && (r.value.typ != Codec.KEEPALIVE ==>
        && r.value.typ == Codec.DATA
        && (r.value.isACK ==> r.value.payload.Acks? && r.value.payload.acks in batches)
        && (!r.value.isACK ==> r.value.payload.Raw? && WasIssued(issued, r.value.id, r.value.payload.data))))
  }

  /** A datagram kept under `key` by the side `from` shows the packet of that key, if it
      shows anything. */
  ghost predicate Shows(w: World, from: Side, issued: seq<Issued>, key: Key, datagram: bytes) {
    var r := Opened(w, datagram);
    !Panics(w, r) && (r.Ok? ==>
      && r.value.sessionID == w.session && r.value.typ == Codec.DATA && !r.value.isACK
      && r.value.id == key.id && r.value.payload.Raw? && w.decode(from, r.value.payload.data) == Some(key.endpoint)
      && WasIssued(issued, r.value.id, r.value.payload.data))
  }

  lemma SealedIsShort(w: World, m: Codec.Message, rnd: Fields.Random, order: seq<u64>)
    requires Sensible(w)
    requires m.payload.Acks? ==> IsOrder(order, m.payload.acks)
    requires Sealed(w, m, rnd, order).Some?
    ensures var s := Codec.Sender(w.codec, w.cmp, rnd, order);
      && Codec.EncodedPayload(s, m).Ok?
      && Datagram.Representable(w.codec, Codec.EncodedPayload(s, m).value.payload)
      && Opened(w, Sealed(w, m, rnd, order).value) == Datagram.Delivered(s, w.keys, m)
  {
    var s := Codec.Sender(w.codec, w.cmp, rnd, order);
    var e := Codec.EncodedPayload(s, m).value;
    Codec.CompressionIsKnown(s, m);
    Datagram.SealedHeader(s, w.keys, m, e);
    hide Codec.HeaderOf, Codec.HeaderBytes, Datagram.TakenApart, Datagram.Sealed, Datagram.Arriving, Datagram.Good, Codec.Sound, IsOrder;
  }

  /** A packet's datagram shows its number and contents, or is rejected. */
  lemma DataIsMeaningful(w: World, from: Side, issued: seq<Issued>, batches: seq<AckData>, x: Issued, kind: u8, level: u8, rnd: Fields.Random)
    requires Sensible(w) && x in issued && w.decode(from, x.data) == Some(x.endpoint)
    requires Sealed(w, DataMessage(w, x, kind, level), rnd, []).Some?
    ensures var datagram := Sealed(w, DataMessage(w, x, kind, level), rnd, []).value;
      Meaningful(w, issued, batches, datagram) && Shows(w, from, issued, KeyOf(x), datagram)
  {
    var s, m := Codec.Sender(w.codec, w.cmp, rnd, []), DataMessage(w, x, kind, level);
    SealedIsShort(w, m, rnd, []);
    var e := Codec.EncodedPayload(s, m).value;
    hide Opened, Sealed, Datagram.Delivered, Codec.EncodedPayload, Datagram.Representable, Datagram.Carried, Datagram.Good, Codec.Sound;
    Datagram.DatagramRoundTrip(s, w.keys, m, e);
  }

  lemma ShownIsMeaningful(w: World, from: Side, issued: seq<Issued>, batches: seq<AckData>, key: Key, datagram: bytes)
    requires Shows(w, from, issued, key, datagram)
    ensures Meaningful(w, issued, batches, datagram)
  {
    hide Opened;
  }

  lemma AcksAreCarried(w: World, acks: AckData, size: nat, order: seq<u64>, s: Codec.Sender)
    requires IsOrder(order, acks) && size == SizeAlong(acks, order) && s.order == order
    requires exists limit :: Fits(AckSet(acks, size, limit))
    requires Codec.EncodedPayload(s, AckMessage(w, acks, size)).Ok?
    ensures acks != map[] && size <= w.codec.payloadSize ==>
      Datagram.Carried(w.codec, AckMessage(w, acks, size), Codec.EncodedPayload(s, AckMessage(w, acks, size)).value.payload)
  {
    AckCodec.EncodeLength(acks, order);
    hide IsOrder, SizeAlong;
    assert |Codec.EncodedPayload(s, AckMessage(w, acks, size)).value.payload| == size;
    assert acks != map[] ==> size > 0;
  }

  /** An acknowledgement's datagram shows the set it was made from, or is rejected; it
      is shown whenever the set is no larger than a payload may be. */
  lemma AcksAreMeaningful(w: World, issued: seq<Issued>, batches: seq<AckData>, acks: AckData, size: nat, order: seq<u64>, rnd: Fields.Random)
    requires Sensible(w) && acks in batches && IsOrder(order, acks) && size == SizeAlong(acks, order)
    requires exists limit :: Fits(AckSet(acks, size, limit))
    requires Sealed(w, AckMessage(w, acks, size), rnd, order).Some?
    ensures var datagram := Sealed(w, AckMessage(w, acks, size), rnd, order).value;
      && Meaningful(w, issued, batches, datagram)
      && (acks != map[] && size <= w.codec.payloadSize ==> Opened(w, datagram).Ok? && Opened(w, datagram).value.typ == Codec.DATA)
  {
    var s, m := Codec.Sender(w.codec, w.cmp, rnd, order), AckMessage(w, acks, size);
    SealedIsShort(w, m, rnd, order);
    var e := Codec.EncodedPayload(s, m).value;
    assert Codec.Sendable(s, m);
    AcksAreCarried(w, acks, size, order, s);
    hide Opened, Sealed, Datagram.Delivered, Codec.EncodedPayload, Datagram.Representable, Datagram.Carried, Datagram.Good, Codec.Sound,
      Fits, IsOrder, SizeAlong, Codec.Sendable;
    Datagram.DatagramRoundTrip(s, w.keys, m, e);
  }

  lemma KeepalivesAreMeaningful(w: World, issued: seq<Issued>, batches: seq<AckData>, ack: bool, rnd: Fields.Random)
    requires Sensible(w) && Sealed(w, KeepaliveMessage(w, ack), rnd, []).Some?
    ensures Meaningful(w, issued, batches, Sealed(w, KeepaliveMessage(w, ack), rnd, []).value)
  {
    var s, m := Codec.Sender(w.codec, w.cmp, rnd, []), KeepaliveMessage(w, ack);
    SealedIsShort(w, m, rnd, []);
    hide Opened, Sealed, Datagram.Delivered, Codec.EncodedPayload, Datagram.Representable, Datagram.Good, Codec.Sound;
    Datagram.ControlRoundTrip(s, w.keys, m);
  }
}
