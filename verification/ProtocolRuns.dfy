/** What every run of the protocol keeps. */
module ProtocolRuns {
  import opened Bytes
  import opened Acknowledgements
  import opened Retransmission
  import opened Protocol
  import Codec
  import Fields
  import Numbering
  import Reorder

  // ----- the invariant

  ghost predicate WasReceived(d: Direction, key: Key) {
    exists m :: m in d.received && m.endpoint == key.endpoint && m.id == key.id
  }

  /** The numbers given are those of the interface's numbering. */
  ghost predicate Numbered(w: World, packets: seq<Numbering.Packet>, issued: seq<Issued>) {
    && |packets| == |issued|
    && (packets != [] ==>
      var before, x := packets[..|packets| - 1], issued[|issued| - 1];
      && Numbered(w, before, issued[..|issued| - 1])
      && x.endpoint == packets[|packets| - 1].endpoint
      && x.id == Numbering.NextID(Numbering.After(w.endpointTTL, before), x.endpoint))
  }

  ghost predicate Decoded(w: World, from: Side, issued: seq<Issued>) {
    forall x :: x in issued ==> w.decode(from, x.data) == Some(x.endpoint)
  }

  ghost predicate AllGenuine(d: Direction) {
    forall m :: m in d.received ==> Genuine(d.issued, m.endpoint, m.id, m.payload)
  }

  function KeyOfMessage(m: Reorder.Message): Key {
    Key(m.endpoint, m.id)
  }

  /** The stream and the accumulator take messages in the order in which they came. */
  ghost predicate InStep(d: Direction) {
    && |d.merged| <= |d.received|
    && (forall k :: 0 <= k < |d.merged| ==> d.merged[k].msg == d.received[k])
    && d.acked == |AckedKeys(d.events)| <= |d.received|
    && (forall k :: 0 <= k < d.acked ==> AckedKeys(d.events)[k] == KeyOfMessage(d.received[k]))
  }

  /** The messages the accumulator was woken by, in order. */
  function AckedKeys(events: seq<Event>): seq<Key> {
    if events == [] then []
    else
      var last := events[|events| - 1];
      AckedKeys(events[..|events| - 1]) + (if last.Acked? then [Key(last.endpoint, last.id)] else [])
  }

  /** What left the table had been received. */
  ghost predicate Settled(d: Direction) {
    forall key :: key in d.stored ==> key in d.inFlight || WasReceived(d, key) || key == BLANK_KEY
  }

  ghost predicate KeyIssued(issued: seq<Issued>, key: Key) {
    exists x :: x in issued && x.endpoint == key.endpoint && x.id == key.id
  }

  /** Every key used was given to a packet. */
  ghost predicate Keyed(d: Direction) {
    && (forall parcel :: parcel in d.outbox ==> KeyIssued(d.issued, parcel.key))
    && (forall key :: key in d.inFlight || key in d.stored ==> KeyIssued(d.issued, key))
  }

  /** What is kept to be sent again shows the packet it is kept for. */
  ghost predicate Kept(w: World, d: Direction) {
    && (forall parcel :: parcel in d.outbox ==> Shows(w, d.from, d.issued, parcel.key, parcel.datagram))
    && (forall timer :: timer in d.waiting ==> Shows(w, d.from, d.issued, timer.key, timer.datagram))
  }

  ghost predicate DirectionInv(w: World, d: Direction) {
    && Numbered(w, d.packets, d.issued) && Decoded(w, d.from, d.issued) && AllGenuine(d)
    && InStep(d) && Settled(d) && Keyed(d) && Kept(w, d)
  }

  ghost predicate WireInv(w: World, issued: seq<Issued>, batches: seq<AckData>, wire: set<bytes>) {
    forall datagram :: datagram in wire ==> Meaningful(w, issued, batches, datagram)
  }

  ghost predicate SideInv(w: World, s: State, side: Side) {
    && From(s, side).from == side
    && DirectionInv(w, From(s, side))
    && WireInv(w, From(s, side).issued, Batches(w, From(s, Other(side))), Wire(s, side))
  }

  ghost predicate Inv(w: World, s: State) {
    SideInv(w, s, Client) && SideInv(w, s, Server)
  }

  /** Waking an accumulator changes its own direction and the datagrams of its side. */
  lemma AccumulatingIsLocal(w: World, s: State, side: Side, ev: Event, rnd: Fields.Random, order: seq<u64>)
    requires OrderOfFlushed(w, From(s, Other(side)), ev, order)
    ensures var next := Accumulating(w, s, side, ev, rnd, order);
      && From(next, Other(side)) == Woken(From(s, Other(side)), ev) && From(next, side) == From(s, side)
      && Wire(next, Other(side)) == Wire(s, Other(side)) && Wire(s, side) <= Wire(next, side)
  {
    hide Sealed, Flushed, Woken;
  }

  // ----- acknowledgements are earned

  lemma {:induction false} AcrossHas(batches: seq<AckData>, k: nat, e: u64, id: u32)
    requires k < |batches| && e in batches[k] && id in batches[k][e]
    ensures id in IdsAcross(batches, e)
  {
    if k < |batches| - 1 { AcrossHas(batches[..|batches| - 1], k, e, id); }
  }

  lemma {:induction false} IdsOfHas(events: seq<Event>, e: u64, id: u32)
    requires id in IdsOf(events, e)
    ensures Key(e, id) in AckedKeys(events)
  {
    var before, last := events[..|events| - 1], events[|events| - 1];
    if id in IdsOf(before, e) { IdsOfHas(before, e, id); }
  }

  lemma AckedIsReceived(d: Direction, key: Key)
    requires InStep(d) && key in AckedKeys(d.events)
    ensures WasReceived(d, key)
  {
    var k :| 0 <= k < d.acked && AckedKeys(d.events)[k] == key;
    assert d.received[k] in d.received;
  }

  /** Whatever a batch names was given to the accumulator. */
  lemma BatchIsEarned(w: World, d: Direction, acks: AckData, key: Key)
    requires InStep(d) && acks in Batches(w, d) && Names(acks, key)
    ensures WasReceived(d, key)
  {
    var batches := Batches(w, d);
    var k :| 0 <= k < |batches| && batches[k] == acks;
    if w.maxAck < ENDPOINT_SIZE + 4 {
      TooSmallLosesAll(w.maxAck, d.events);
    } else {
      AcrossHas(batches, k, key.endpoint, key.id);
      BatchingConserves(w.maxAck, d.events, key.endpoint);
      assert key.id in Total(Batched(w.maxAck, d.events), key.endpoint);
      IdsOfHas(d.events, key.endpoint, key.id);
      AckedIsReceived(d, key);
    }
  }

  lemma BatchIsFit(w: World, d: Direction, acks: AckData, order: seq<u64>)
    requires acks in Batches(w, d) && IsOrder(order, acks)
    ensures acks != map[] && Fits(AckSet(acks, SizeAlong(acks, order), w.maxAck))
  {
    BatchesFit(w.maxAck, d.events);
    var batches := Batches(w, d);
    var k :| 0 <= k < |batches| && batches[k] == acks;
    var size :| Fits(AckSet(batches[k], size, w.maxAck));
    assert SizeAlong(acks, order) == size;
  }

  /** A new event never takes back what was handed over before, and what it hands over
      is a batch from then on. */
  lemma BatchesGrow(w: World, d: Direction, ev: Event)
    ensures Batches(w, d) <= Batches(w, Woken(d, ev))
    ensures Flushed(w, d, ev).Some? ==> Flushed(w, d, ev).value in Batches(w, Woken(d, ev))
  {
    OneMoreEvent(w.maxAck, d.events, ev);
    var before, after := Batched(w.maxAck, d.events), Batched(w.maxAck, d.events + [ev]);
    assert before.batches <= after.batches;
    if Flushed(w, d, ev).Some? { assert after.batches[|before.batches|] in after.batches; }
  }

  // ----- a direction, step by step

  /** Nothing that gives a datagram its meaning is ever taken back. */
  ghost predicate Grows(w: World, before: Direction, after: Direction) {
    before.from == after.from && before.issued <= after.issued && Batches(w, before) <= Batches(w, after)
  }

  lemma ReceivedMore(d: Direction, next: Direction)
    requires d.received <= next.received
    ensures forall key :: WasReceived(d, key) ==> WasReceived(next, key)
  {
    assert forall m :: m in d.received ==> m in next.received;
  }

  lemma ReadingIsTheRest(w: World, d: Direction, data: bytes, now: int, curTs: int)
    requires DirectionInv(w, d) && w.decode(d.from, data).Some?
    ensures var next := Reading(w, d, data, now, curTs);
      AllGenuine(next) && InStep(next) && Settled(next) && Keyed(next) && Kept(w, next)
  {
    var next := Reading(w, d, data, now, curTs);
    ReceivedMore(d, next);
    assert forall x :: x in d.issued ==> x in next.issued;
    hide Numbered, Numbering.NextID, Numbering.After, Opened, Panics, AckedKeys, WasReceived;
  }

  lemma ReadingIsNumbered(w: World, d: Direction, data: bytes, now: int, curTs: int)
    requires Numbered(w, d.packets, d.issued) && Decoded(w, d.from, d.issued) && w.decode(d.from, data).Some?
    ensures var next := Reading(w, d, data, now, curTs);
      Numbered(w, next.packets, next.issued) && Decoded(w, next.from, next.issued)
  {
    var next := Reading(w, d, data, now, curTs);
    hide Numbering.NextID, Numbering.After;
    assert next.packets[..|next.packets| - 1] == d.packets;
    assert next.issued[..|next.issued| - 1] == d.issued;
  }

  lemma ReadingKeeps(w: World, d: Direction, data: bytes, now: int, curTs: int)
    requires DirectionInv(w, d) && w.decode(d.from, data).Some?
    ensures var next := Reading(w, d, data, now, curTs);
      DirectionInv(w, next) && Grows(w, d, next)
  {
    hide Numbered, Decoded, AllGenuine, InStep, Settled, Keyed, Kept, Batched, Numbering.NextID, Numbering.After;
    ReadingIsTheRest(w, d, data, now, curTs);
    ReadingIsNumbered(w, d, data, now, curTs);
  }

  /** A step on what waits to be stored or sent again, and on the table, concerns three
      parts of the invariant only. */
  lemma SenderKeeps(w: World, d: Direction, next: Direction)
    requires DirectionInv(w, d) && Settled(next) && Keyed(next) && Kept(w, next)
    requires next == d.(handled := next.handled, outbox := next.outbox, waiting := next.waiting,
                        inFlight := next.inFlight, stored := next.stored)
    ensures DirectionInv(w, next) && Grows(w, d, next)
  {
    ReceivedMore(d, next);
    hide Numbered, AckedKeys, WasReceived, Batched, Settled, Keyed, Kept;
  }

  lemma SettledStays(d: Direction, next: Direction)
    requires Settled(d) && d.received == next.received
    requires forall key :: key in next.stored && key !in next.inFlight && key != BLANK_KEY ==> key in d.stored && key !in d.inFlight
    ensures Settled(next)
  {
    ReceivedMore(d, next);
    hide WasReceived;
  }

  lemma TransmittingKeeps(w: World, d: Direction, i: nat, datagram: Option<bytes>)
    requires DirectionInv(w, d) && i < |d.issued|
    requires datagram.Some? ==> Shows(w, d.from, d.issued, KeyOf(d.issued[i]), datagram.value)
    ensures DirectionInv(w, Transmitting(d, i, datagram)) && Grows(w, d, Transmitting(d, i, datagram))
  {
    var next := Transmitting(d, i, datagram);
    assert d.issued[i] in d.issued;
    hide Numbered, Shows, InStep, AllGenuine, Decoded, Grows;
    assert Settled(next) by { SettledStays(d, next); }
    hide Settled;
    assert Keyed(next) by { hide Kept; }
    hide Keyed, KeyIssued;
    SenderKeeps(w, d, next);
  }

  lemma StoringIsKept(w: World, d: Direction, parcel: Parcel, rto: nat)
    requires Keyed(d) && Kept(w, d) && parcel in d.outbox
    ensures Keyed(Storing(d, parcel, rto)) && Kept(w, Storing(d, parcel, rto))
  {
    hide KeyIssued, Shows;
  }

  lemma StoringKeeps(w: World, d: Direction, parcel: Parcel, rto: nat)
    requires DirectionInv(w, d) && parcel in d.outbox
    ensures DirectionInv(w, Storing(d, parcel, rto)) && Grows(w, d, Storing(d, parcel, rto))
  {
    hide Numbered, Shows, InStep, AllGenuine, Decoded, Grows, Keyed, Kept, KeyIssued;
    SettledStays(d, Storing(d, parcel, rto));
    StoringIsKept(w, d, parcel, rto);
    hide Settled;
    SenderKeeps(w, d, Storing(d, parcel, rto));
  }

  lemma ResendingKeeps(w: World, d: Direction, timer: Waiting, due: int)
    requires DirectionInv(w, d) && timer in d.waiting
    ensures DirectionInv(w, Resending(d, timer, due)) && Grows(w, d, Resending(d, timer, due))
  {
    hide Numbered, Shows, Settled, InStep, AllGenuine, Decoded, Grows, KeyIssued;
    assert Settled(Resending(d, timer, due)) by { SettledStays(d, Resending(d, timer, due)); }
    assert Keyed(Resending(d, timer, due)) && Kept(w, Resending(d, timer, due));
    hide Keyed, Kept;
    SenderKeeps(w, d, Resending(d, timer, due));
  }

  lemma FinishingKeeps(w: World, d: Direction, timer: Waiting)
    requires DirectionInv(w, d)
    ensures DirectionInv(w, Finishing(d, timer)) && Grows(w, d, Finishing(d, timer))
  {
    hide Numbered, Shows, Settled, InStep, AllGenuine, Decoded, Grows, KeyIssued;
    assert Settled(Finishing(d, timer)) by { SettledStays(d, Finishing(d, timer)); }
    assert Keyed(Finishing(d, timer)) && Kept(w, Finishing(d, timer));
    hide Keyed, Kept;
    SenderKeeps(w, d, Finishing(d, timer));
  }

  lemma MergingKeeps(w: World, d: Direction, pushedAt: int, checkedAt: int)
    requires DirectionInv(w, d) && |d.merged| < |d.received|
    ensures DirectionInv(w, Merging(d, pushedAt, checkedAt)) && Grows(w, d, Merging(d, pushedAt, checkedAt))
  {
    ReceivedMore(d, Merging(d, pushedAt, checkedAt));
    hide Numbered, Shows, AckedKeys, WasReceived, Batched, KeyIssued;
  }

  /** The event is the message that is next in the channel, if it is a message. */
  ghost predicate IsNextEvent(d: Direction, ev: Event) {
    ev.Acked? ==> d.acked < |d.received| && Key(ev.endpoint, ev.id) == KeyOfMessage(d.received[d.acked])
  }

  lemma WokenIsInStep(d: Direction, ev: Event)
    requires InStep(d) && IsNextEvent(d, ev)
    ensures InStep(Woken(d, ev))
  {
    assert (d.events + [ev])[..|d.events|] == d.events;
    assert AckedKeys(d.events + [ev]) == AckedKeys(d.events) + (if ev.Acked? then [Key(ev.endpoint, ev.id)] else []);
  }

  lemma WakingKeeps(w: World, d: Direction, ev: Event)
    requires DirectionInv(w, d) && IsNextEvent(d, ev)
    ensures DirectionInv(w, Woken(d, ev)) && Grows(w, d, Woken(d, ev))
  {
    WokenIsInStep(d, ev);
    BatchesGrow(w, d, ev);
    ReceivedMore(d, Woken(d, ev));
    hide Numbered, Shows, AckedKeys, WasReceived, Batched, KeyIssued, InStep;
  }

  lemma ReceivingKeeps(w: World, d: Direction, m: Codec.Message)
    requires DirectionInv(w, d)
    requires m.payload.Raw? ==> WasIssued(d.issued, m.id, m.payload.data)
    ensures DirectionInv(w, Receiving(w, d, m)) && Grows(w, d, Receiving(w, d, m))
  {
    var next := Receiving(w, d, m);
    hide Numbered, Shows, AckedKeys, Batched, KeyIssued;
    assert AllGenuine(next) && InStep(next);
    hide AllGenuine, InStep, Decoded;
    ReceivedMore(d, next);
    hide WasReceived;
  }

  lemma SettlingKeeps(w: World, d: Direction, m: Codec.Message)
    requires DirectionInv(w, d)
    requires m.payload.Acks? ==> m.payload.acks in Batches(w, d)
    ensures DirectionInv(w, Settling(d, m)) && Grows(w, d, Settling(d, m))
  {
    var next := Settling(d, m);
    ReceivedMore(d, next);
    forall key | key in next.stored
      ensures key in next.inFlight || WasReceived(next, key) || key == BLANK_KEY
    {
      if key in d.inFlight && key !in next.inFlight { BatchIsEarned(w, d, m.payload.acks, key); }
    }
    hide Numbered, Shows, AckedKeys, WasReceived, Batched, KeyIssued;
  }

  // ----- both sides

  lemma MeaningStays(w: World, issued: seq<Issued>, more: seq<Issued>, batches: seq<AckData>, later: seq<AckData>, wire: set<bytes>)
    requires WireInv(w, issued, batches, wire) && issued <= more && batches <= later
    ensures WireInv(w, more, later, wire)
  {
    hide Opened;
    assert forall x :: x in issued ==> x in more;
    assert forall acks :: acks in batches ==> acks in later;
  }

  /** A step of one direction that keeps its own invariant keeps all of it. */
  lemma DirectionStepKeeps(w: World, s: State, side: Side, d: Direction)
    requires Inv(w, s) && DirectionInv(w, d) && Grows(w, From(s, side), d)
    ensures Inv(w, WithDirection(s, side, d))
  {
    var other := From(s, Other(side));
    hide DirectionInv, WireInv, Batches;
    MeaningStays(w, From(s, side).issued, d.issued, Batches(w, other), Batches(w, other), Wire(s, side));
    MeaningStays(w, other.issued, other.issued, Batches(w, From(s, side)), Batches(w, d), Wire(s, Other(side)));
  }

  lemma DatagramStepKeeps(w: World, s: State, side: Side, datagram: Option<bytes>)
    requires Inv(w, s)
    requires datagram.Some? ==> Meaningful(w, From(s, side).issued, Batches(w, From(s, Other(side))), datagram.value)
    ensures Inv(w, WithSent(s, side, datagram))
  {
    hide DirectionInv, Meaningful, Batches;
  }

  lemma ReadKeeps(w: World, s: State, step: Step)
    requires Inv(w, s) && Enabled(w, s, step) && step.Read?
    ensures Inv(w, Next(w, s, step))
  {
    var d := From(s, step.side);
    ReadingKeeps(w, d, step.data, step.now, step.curTs);
    hide DirectionInv, WireInv, Grows, Reading;
    DirectionStepKeeps(w, s, step.side, Reading(w, d, step.data, step.now, step.curTs));
  }

  lemma TransmitKeeps(w: World, s: State, step: Step)
    requires Sensible(w) && Inv(w, s) && Enabled(w, s, step) && step.Transmit?
    ensures Inv(w, Next(w, s, step))
  {
    var d := From(s, step.side);
    var x := d.issued[step.i];
    var datagram := Sealed(w, DataMessage(w, x, step.kind, step.level), step.rnd, []);
    hide Sealed, Opened, Sensible, Batches;
    if datagram.Some? {
      DataIsMeaningful(w, d.from, d.issued, Batches(w, From(s, Other(step.side))), x, step.kind, step.level, step.rnd);
    }
    TransmittingKeeps(w, d, step.i, datagram);
    var next := Transmitting(d, step.i, datagram);
    hide DirectionInv, WireInv, Grows, Shows, Meaningful;
    DirectionStepKeeps(w, s, step.side, next);
    hide Inv;
    DatagramStepKeeps(w, WithDirection(s, step.side, next), step.side, datagram);
  }

  lemma DropKeeps(w: World, s: State, step: Step)
    requires Inv(w, s) && Enabled(w, s, step) && step.Drop?
    ensures Inv(w, Next(w, s, step))
  {
    hide DirectionInv, WireInv, Grows, Batches, Transmitting, Shows;
    TransmittingKeeps(w, From(s, step.side), step.i, None);
    DirectionStepKeeps(w, s, step.side, Transmitting(From(s, step.side), step.i, None));
  }

  lemma StoreKeeps(w: World, s: State, step: Step)
    requires Inv(w, s) && Enabled(w, s, step) && step.Store?
    ensures Inv(w, Next(w, s, step))
  {
    hide DirectionInv, WireInv, Grows, Batches, Storing;
    StoringKeeps(w, From(s, step.side), step.parcel, step.rto);
    DirectionStepKeeps(w, s, step.side, Storing(From(s, step.side), step.parcel, step.rto));
  }

  lemma KeptIsMeaningful(w: World, d: Direction, timer: Waiting, batches: seq<AckData>)
    requires DirectionInv(w, d) && timer in d.waiting
    ensures Meaningful(w, d.issued, batches, timer.datagram)
  {
    hide Meaningful, Shows, Numbered, AckedKeys;
    ShownIsMeaningful(w, d.from, d.issued, batches, timer.key, timer.datagram);
  }

  lemma ResendKeeps(w: World, s: State, step: Step)
    requires Inv(w, s) && Enabled(w, s, step) && step.Resend?
    ensures Inv(w, Next(w, s, step))
  {
    var d := From(s, step.side);
    hide WireInv, Grows, Batches, Meaningful, DirectionInv;
    ResendingKeeps(w, d, step.timer, step.due);
    KeptIsMeaningful(w, d, step.timer, Batches(w, From(s, Other(step.side))));
    var next := Resending(d, step.timer, step.due);
    hide Resending;
    DirectionStepKeeps(w, s, step.side, next);
    hide Inv;
    DatagramStepKeeps(w, WithDirection(s, step.side, next), step.side, Some(step.timer.datagram));
  }

  lemma FinishKeeps(w: World, s: State, step: Step)
    requires Inv(w, s) && Enabled(w, s, step) && step.Finish?
    ensures Inv(w, Next(w, s, step))
  {
    hide DirectionInv, WireInv, Grows, Batches, Finishing;
    FinishingKeeps(w, From(s, step.side), step.timer);
    DirectionStepKeeps(w, s, step.side, Finishing(From(s, step.side), step.timer));
  }

  lemma LoseKeeps(w: World, s: State, step: Step)
    requires Inv(w, s) && Enabled(w, s, step) && step.Lose?
    ensures Inv(w, Next(w, s, step))
  {
    hide DirectionInv, Meaningful, Batches;
  }

  /** A packet that arrives from `side`. */
  lemma PacketKeeps(w: World, s: State, side: Side, m: Codec.Message)
    requires Inv(w, s) && (m.payload.Raw? ==> WasIssued(From(s, side).issued, m.id, m.payload.data))
    ensures Inv(w, WithDirection(s, side, Receiving(w, From(s, side), m)))
  {
    hide DirectionInv, Batches, WireInv, Grows, Receiving;
    ReceivingKeeps(w, From(s, side), m);
    DirectionStepKeeps(w, s, side, Receiving(w, From(s, side), m));
  }

  /** An acknowledgement that arrives at `side`. */
  lemma AcksKeep(w: World, s: State, side: Side, m: Codec.Message)
    requires Inv(w, s) && (m.payload.Acks? ==> m.payload.acks in Batches(w, From(s, side)))
    ensures Inv(w, WithDirection(s, side, Settling(From(s, side), m)))
  {
    hide DirectionInv, Batches, WireInv, Grows, Settling;
    SettlingKeeps(w, From(s, side), m);
    DirectionStepKeeps(w, s, side, Settling(From(s, side), m));
  }

  lemma ArrivingIsMeaningful(w: World, s: State, side: Side, datagram: bytes)
    requires Inv(w, s) && datagram in Wire(s, side)
    ensures var r := Opened(w, datagram);
      r.Ok? && r.value.sessionID == w.session && r.value.typ == Codec.DATA ==>
        && (r.value.isACK ==> r.value.payload.Acks? && r.value.payload.acks in Batches(w, From(s, Other(side))))
        && (!r.value.isACK ==> r.value.payload.Raw? && WasIssued(From(s, side).issued, r.value.id, r.value.payload.data))
  {
    hide Opened, Batches, DirectionInv, WasIssued, Panics;
    assert Meaningful(w, From(s, side).issued, Batches(w, From(s, Other(side))), datagram);
  }

  lemma ArriveKeeps(w: World, s: State, step: Step)
    requires Inv(w, s) && Enabled(w, s, step) && step.Arrive?
    ensures Inv(w, Next(w, s, step))
  {
    var side, other := step.side, Other(step.side);
    ArrivingIsMeaningful(w, s, side, step.datagram);
    var r := Opened(w, step.datagram);
    hide Opened, Batches, Inv, Receiving, Settling, WasIssued, Meaningful, Accumulating, OrderOfFlushed, Panics;
    if r.Ok? && r.value.sessionID == w.session && r.value.typ == Codec.DATA {
      if r.value.isACK {
        AcksKeep(w, s, other, r.value);
      } else {
        PacketKeeps(w, s, side, r.value);
      }
    }
  }

  lemma MergeKeeps(w: World, s: State, step: Step)
    requires Inv(w, s) && Enabled(w, s, step) && step.Merge?
    ensures Inv(w, Next(w, s, step))
  {
    var other := Other(step.side);
    hide DirectionInv, WireInv, Grows, Batches, Merging;
    MergingKeeps(w, From(s, other), step.pushedAt, step.checkedAt);
    DirectionStepKeeps(w, s, other, Merging(From(s, other), step.pushedAt, step.checkedAt));
  }

  lemma FlushedIsMeaningful(w: World, d: Direction, ev: Event, issued: seq<Issued>, rnd: Fields.Random, order: seq<u64>)
    requires Sensible(w) && Flushed(w, d, ev).Some? && IsOrder(order, Flushed(w, d, ev).value)
    ensures var acks := Flushed(w, d, ev).value;
      var datagram := Sealed(w, AckMessage(w, acks, SizeAlong(acks, order)), rnd, order);
      datagram.Some? ==> Meaningful(w, issued, Batches(w, Woken(d, ev)), datagram.value)
  {
    var acks := Flushed(w, d, ev).value;
    hide Meaningful, Fits, IsOrder, Sealed, Sensible, Batches, Flushed, SizeAlong;
    BatchesGrow(w, d, ev);
    BatchIsFit(w, Woken(d, ev), acks, order);
    if Sealed(w, AckMessage(w, acks, SizeAlong(acks, order)), rnd, order).Some? {
      AcksAreMeaningful(w, issued, Batches(w, Woken(d, ev)), acks, SizeAlong(acks, order), order, rnd);
    }
  }

  lemma AccumulatingKeeps(w: World, s: State, side: Side, ev: Event, rnd: Fields.Random, order: seq<u64>)
    requires Sensible(w) && Inv(w, s)
    requires IsNextEvent(From(s, Other(side)), ev) && OrderOfFlushed(w, From(s, Other(side)), ev, order)
    ensures Inv(w, Accumulating(w, s, side, ev, rnd, order))
  {
    var d := From(s, Other(side));
    var next := Woken(d, ev);
    hide DirectionInv, WireInv, Grows, Batches, Flushed, Woken, Meaningful, Sealed, Sensible, SizeAlong;
    WakingKeeps(w, d, ev);
    DirectionStepKeeps(w, s, Other(side), next);
    hide Inv;
    if Flushed(w, d, ev).Some? {
      var acks := Flushed(w, d, ev).value;
      FlushedIsMeaningful(w, d, ev, From(s, side).issued, rnd, order);
      DatagramStepKeeps(w, WithDirection(s, Other(side), next), side, Sealed(w, AckMessage(w, acks, SizeAlong(acks, order)), rnd, order));
    }
  }

  lemma AcknowledgeKeeps(w: World, s: State, step: Step)
    requires Sensible(w) && Inv(w, s) && Enabled(w, s, step) && step.Acknowledge?
    ensures Inv(w, Next(w, s, step))
  {
    hide Inv, Batches, Sensible, Accumulating, Flushed, IsOrder;
    var ev := NextAcked(From(s, Other(step.side)), step.firstNow, step.now, step.wait);
    AccumulatingKeeps(w, s, step.side, ev, step.rnd, step.order);
  }

  lemma ExpireKeeps(w: World, s: State, step: Step)
    requires Sensible(w) && Inv(w, s) && Enabled(w, s, step) && step.Expire?
    ensures Inv(w, Next(w, s, step))
  {
    hide Inv, Batches, Sensible, Accumulating, Flushed, IsOrder;
    AccumulatingKeeps(w, s, step.side, Expired, step.rnd, step.order);
  }

  lemma ProbingKeeps(w: World, s: State, side: Side, ack: bool, rnd: Fields.Random)
    requires Sensible(w) && Inv(w, s)
    ensures Inv(w, WithSent(s, side, Sealed(w, KeepaliveMessage(w, ack), rnd, [])))
  {
    var datagram := Sealed(w, KeepaliveMessage(w, ack), rnd, []);
    hide Sealed, Opened, Sensible, Batches, Inv, Meaningful;
    if datagram.Some? {
      KeepalivesAreMeaningful(w, From(s, side).issued, Batches(w, From(s, Other(side))), ack, rnd);
    }
    DatagramStepKeeps(w, s, side, datagram);
  }

  lemma ProbeKeeps(w: World, s: State, step: Step)
    requires Sensible(w) && Inv(w, s) && Enabled(w, s, step) && step.Probe?
    ensures Inv(w, Next(w, s, step))
  {
    hide Sealed, Sensible, Inv, Enabled, WithSent, KeepaliveMessage, OrderOfFlushed, Accumulating;
    ProbingKeeps(w, s, step.side, step.ack, step.rnd);
  }

  lemma NextKeeps(w: World, s: State, step: Step)
    requires Sensible(w) && Inv(w, s) && Enabled(w, s, step)
    ensures Inv(w, Next(w, s, step))
  {
    hide Sensible, Inv, Enabled, Next;
    match step
    case Read(_, _, _, _) => ReadKeeps(w, s, step);
    case Transmit(_, _, _, _, _) => TransmitKeeps(w, s, step);
    case Drop(_, _) => DropKeeps(w, s, step);
    case Store(_, _, _) => StoreKeeps(w, s, step);
    case Resend(_, _, _, _) => ResendKeeps(w, s, step);
    case Finish(_, _) => FinishKeeps(w, s, step);
    case Lose(_, _) => LoseKeeps(w, s, step);
    case Arrive(_, _) => ArriveKeeps(w, s, step);
    case Merge(_, _, _) => MergeKeeps(w, s, step);
    case Acknowledge(_, _, _, _, _, _) => AcknowledgeKeeps(w, s, step);
    case Expire(_, _, _) => ExpireKeeps(w, s, step);
    case Probe(_, _, _) => ProbeKeeps(w, s, step);
  }

  lemma {:induction false} AlwaysInv(w: World, steps: seq<Step>)
    requires Sensible(w)
    ensures Inv(w, After(w, steps))
  {
    if steps != [] {
      var before, step := After(w, steps[..|steps| - 1]), steps[|steps| - 1];
      AlwaysInv(w, steps[..|steps| - 1]);
      if Enabled(w, before, step) { NextKeeps(w, before, step); }
    }
  }

  lemma DirectionAlways(w: World, steps: seq<Step>, side: Side)
    requires Sensible(w)
    ensures DirectionInv(w, From(After(w, steps), side))
  {
    AlwaysInv(w, steps);
    hide DirectionInv, WireInv, After;
    assert SideInv(w, After(w, steps), side);
  }

  // ----- what takes an entry out of the table

  function EventOf(s: State, step: Step): Event
    requires step.Acknowledge? ==> From(s, Other(step.side)).acked < |From(s, Other(step.side)).received|
  {
    if step.Acknowledge? then NextAcked(From(s, Other(step.side)), step.firstNow, step.now, step.wait) else Expired
  }

  lemma WakingIsLocal(w: World, s: State, step: Step)
    requires Enabled(w, s, step) && (step.Acknowledge? || step.Expire?)
    ensures var next, side := Next(w, s, step), step.side;
      && From(next, Other(side)) == Woken(From(s, Other(side)), EventOf(s, step)) && From(next, side) == From(s, side)
      && Wire(next, Other(side)) == Wire(s, Other(side)) && Wire(s, side) <= Wire(next, side)
  {
    hide Accumulating, OrderOfFlushed, Dispatched, Reading, Sealed;
    AccumulatingIsLocal(w, s, step.side, EventOf(s, step), step.rnd, step.order);
  }

  /** The step takes nothing that comes from the other side. */
  ghost predicate Sending(step: Step) {
    !step.Arrive? && !step.Merge? && !step.Acknowledge? && !step.Expire?
  }

  lemma SendingIsLocal(w: World, s: State, step: Step, side: Side)
    requires Enabled(w, s, step) && Sending(step) && side != step.side
    ensures From(Next(w, s, step), side) == From(s, side) && Wire(Next(w, s, step), side) == Wire(s, side)
  {
    hide Accumulating, OrderOfFlushed, Dispatched, Sealed, Reading, Transmitting, Storing, Resending, Finishing;
  }

  lemma TakingIsLocal(w: World, s: State, step: Step, side: Side)
    requires Enabled(w, s, step) && (step.Arrive? || step.Merge?)
    ensures var d, later := From(s, side), From(Next(w, s, step), side);
      && later == d.(inFlight := later.inFlight, received := later.received, merged := later.merged)
      && (step.Merge? ==> later.inFlight == d.inFlight)
      && (step.Merge? || step.side != side ==> later.received == d.received)
    ensures Wire(Next(w, s, step), side) == Wire(s, side)
  {
    hide Accumulating, OrderOfFlushed, Opened, Sealed;
  }

  lemma SendingTakesNothing(w: World, s: State, step: Step)
    requires Enabled(w, s, step) && Sending(step)
    ensures var d, later := From(s, step.side), From(Next(w, s, step), step.side);
      later.received == d.received && later.merged == d.merged && later.acked == d.acked && later.events == d.events
  {
    hide Accumulating, OrderOfFlushed, Dispatched, Sealed, Numbering.After, Numbering.NextID, Merging;
  }

  lemma SendingRemovesNone(w: World, s: State, step: Step, key: Key)
    requires Enabled(w, s, step) && Sending(step)
    requires key != BLANK_KEY && key in From(s, step.side).inFlight
    ensures key in From(Next(w, s, step), step.side).inFlight
  {
    hide Accumulating, OrderOfFlushed, Dispatched, Sealed, Numbering.After, Numbering.NextID, Merging;
  }

  /** The datagram takes the entry of this key out of the table. */
  ghost predicate Settles(w: World, key: Key, datagram: bytes) {
    var r := Opened(w, datagram);
    && r.Ok? && r.value.sessionID == w.session && r.value.typ == Codec.DATA && r.value.isACK
    && r.value.payload.Acks? && Names(r.value.payload.acks, key)
  }

  lemma ArrivingSettles(w: World, s: State, step: Step, side: Side, key: Key)
    requires Enabled(w, s, step) && step.Arrive?
    requires key in From(s, side).inFlight && key !in From(Next(w, s, step), side).inFlight
    ensures step.side == Other(side) && Settles(w, key, step.datagram)
  {
    hide Opened, Accumulating, OrderOfFlushed, Sealed;
  }

  lemma OnlyArrivalsRemove(w: World, s: State, step: Step, side: Side, key: Key)
    requires Enabled(w, s, step) && key != BLANK_KEY
    requires key in From(s, side).inFlight && key !in From(Next(w, s, step), side).inFlight
    ensures step.Arrive? && step.side == Other(side)
  {
    hide Enabled, Settles, Next;
    if step.Arrive? {
      ArrivingSettles(w, s, step, side, key);
    } else if step.Merge? {
      TakingIsLocal(w, s, step, side);
    } else if step.Acknowledge? || step.Expire? {
      WakingIsLocal(w, s, step);
    } else if side != step.side {
      SendingIsLocal(w, s, step, side);
    } else {
      SendingRemovesNone(w, s, step, key);
    }
  }
}
