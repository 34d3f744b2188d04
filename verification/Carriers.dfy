/**
 What carries a packet, or its acknowledgement, from one peer to the other at some point
 of a run, and that nothing carries it again once nothing does.
 */
module Carriers {
  import opened Bytes
  import opened Acknowledgements
  import opened Retransmission
  import opened Protocol
  import opened ProtocolRuns
  import Codec
  import Datagram
  import Encryptor
  import Fields
  import Numbering

  lemma AfterStep(w: World, steps: seq<Step>, step: Step)
    ensures var s := After(w, steps);
      After(w, steps + [step]) == if Enabled(w, s, step) then Next(w, s, step) else s
  {
    assert (steps + [step])[..|steps|] == steps;
  }

  lemma AfterMore(w: World, steps: seq<Step>, step: Step)
    requires Enabled(w, After(w, steps), step)
    ensures After(w, steps + [step]) == Next(w, After(w, steps), step)
  {
    assert (steps + [step])[..|steps|] == steps;
  }

  lemma FrontAndLast<T>(steps: seq<T>, more: seq<T>)
    requires more != []
    ensures steps + more == (steps + more[..|more| - 1]) + [more[|more| - 1]]
  {
  }

  lemma AfterLast(w: World, steps: seq<Step>, more: seq<Step>)
    requires more != []
    ensures var s, last := After(w, steps + more[..|more| - 1]), more[|more| - 1];
      After(w, steps + more) == if Enabled(w, s, last) then Next(w, s, last) else s
  {
    hide After, Enabled, Next;
    FrontAndLast(steps, more);
    AfterStep(w, steps + more[..|more| - 1], more[|more| - 1]);
  }

  // ----- a packet's datagram

  /** A packet's datagram is taken in exactly when its encoded contents are not empty and
      no longer than a payload may be; then they are what was sent. */
  lemma PacketIsTakenIff(w: World, x: Issued, kind: u8, level: u8, rnd: Fields.Random)
    requires Sensible(w)
    requires Sealed(w, DataMessage(w, x, kind, level), rnd, []).Some?
    ensures Codec.EncodedPayload(Codec.Sender(w.codec, w.cmp, rnd, []), DataMessage(w, x, kind, level)).Ok?
    ensures var r := Opened(w, Sealed(w, DataMessage(w, x, kind, level), rnd, []).value);
      var contents := Codec.EncodedPayload(Codec.Sender(w.codec, w.cmp, rnd, []), DataMessage(w, x, kind, level)).value.payload;
      && (r.Ok? <==> contents != [] && Encryptor.GetLength(|contents|) <= Encryptor.GetLength(w.codec.payloadSize))
      && (r.Ok? ==> r.value.id == x.id && r.value.payload == Codec.Raw(x.data) && Receivable(w, r.value))
  {
    var s, m := Codec.Sender(w.codec, w.cmp, rnd, []), DataMessage(w, x, kind, level);
    SealedIsShort(w, m, rnd, []);
    var e := Codec.EncodedPayload(s, m).value;
    hide Opened, Sealed, Datagram.Delivered, Codec.EncodedPayload, Datagram.Representable, Datagram.Good, Codec.Sound, Encryptor.GetLength;
    Datagram.DatagramRoundTrip(s, w.keys, m, e);
  }

  ghost predicate Receivable(w: World, m: Codec.Message) {
    m.sessionID == w.session && m.typ == Codec.DATA && !m.isACK && m.payload.Raw?
  }

  /** Some compression and some filler give the packet a datagram that can be taken in. */
  ghost predicate Takeable(w: World, x: Issued) {
    exists kind, level, rnd :: TakenAs(w, x, kind, level, rnd)
  }

  ghost predicate TakenAs(w: World, x: Issued, kind: u8, level: u8, rnd: Fields.Random) {
    var datagram := Sealed(w, DataMessage(w, x, kind, level), rnd, []);
    datagram.Some? && Opened(w, datagram.value).Ok?
  }

  // ----- what carries a packet

  /** The datagram brings the packet of this key to the other side. */
  ghost predicate Brings(w: World, from: Side, key: Key, datagram: bytes) {
    var r := Opened(w, datagram);
    && r.Ok? && Receivable(w, r.value)
    && r.value.id == key.id && w.decode(from, r.value.payload.data) == Some(key.endpoint)
  }

  ghost predicate OnItsWay(w: World, d: Direction, wire: set<bytes>, key: Key) {
    exists datagram :: datagram in wire && Brings(w, d.from, key, datagram)
  }

  /** No handler has had the packet yet. */
  ghost predicate Unsent(w: World, d: Direction, key: Key) {
    exists i :: 0 <= i < |d.issued| && i !in d.handled && KeyOf(d.issued[i]) == key && Takeable(w, d.issued[i])
  }

  /** Its goroutine is about to start. */
  ghost predicate Unstored(w: World, d: Direction, key: Key) {
    w.maxTimeout > 0 && exists parcel :: parcel in d.outbox && parcel.key == key && Opened(w, parcel.datagram).Ok?
  }

  /** A goroutine waits to send it again before the maximum timeout. */
  ghost predicate Awaited(w: World, d: Direction, key: Key) {
    exists timer :: timer in d.waiting && timer.key == key && timer.due < w.maxTimeout && Opened(w, timer.datagram).Ok?
  }

  ghost predicate Carried(w: World, d: Direction, wire: set<bytes>, key: Key) {
    OnItsWay(w, d, wire, key) || Unsent(w, d, key) || Unstored(w, d, key) || Awaited(w, d, key)
  }

  lemma ShownIsItsOwn(w: World, from: Side, issued: seq<Issued>, own: Key, key: Key, datagram: bytes)
    requires Shows(w, from, issued, own, datagram)
    ensures Brings(w, from, key, datagram) <==> own == key && Opened(w, datagram).Ok?
  {
    hide Opened, Panics;
  }

  // ----- what carries an acknowledgement

  ghost predicate AckOnItsWay(w: World, back: set<bytes>, key: Key) {
    exists datagram :: datagram in back && Settles(w, key, datagram)
  }

  /** Received, but not yet taken by the accumulator. */
  ghost predicate Queued(d: Direction, key: Key) {
    exists k :: d.acked <= k < |d.received| && KeyOfMessage(d.received[k]) == key
  }

  ghost predicate Buffered(w: World, d: Direction, key: Key) {
    Names(Batched(w.maxAck, d.events).buffer.data, key)
  }

  ghost predicate Owed(w: World, d: Direction, back: set<bytes>, key: Key) {
    AckOnItsWay(w, back, key) || Queued(d, key) || Buffered(w, d, key)
  }

  /** An acknowledgement's datagram brings no packet, and settles what its batch names. */
  lemma AcksSettle(w: World, acks: AckData, rnd: Fields.Random, order: seq<u64>, from: Side, key: Key)
    requires Sensible(w) && IsOrder(order, acks) && exists limit :: Fits(AckSet(acks, SizeAlong(acks, order), limit))
    ensures var datagram := Sealed(w, AckMessage(w, acks, SizeAlong(acks, order)), rnd, order);
      datagram.Some? ==> !Brings(w, from, key, datagram.value) && (Settles(w, key, datagram.value) ==> Names(acks, key))
  {
    var datagram := Sealed(w, AckMessage(w, acks, SizeAlong(acks, order)), rnd, order);
    hide Sealed, Opened, Sensible, SizeAlong, IsOrder, Fits, Names;
    if datagram.Some? { AcksAreMeaningful(w, [], [acks], acks, SizeAlong(acks, order), order, rnd); }
  }

  /** A packet's datagram settles nothing, and neither does a keepalive, which brings nothing either. */
  lemma PacketsSettleNothing(w: World, from: Side, issued: seq<Issued>, own: Key, key: Key, datagram: bytes)
    requires Shows(w, from, issued, own, datagram)
    ensures !Settles(w, key, datagram)
  {
    hide Opened, Panics;
  }

  lemma KeepalivesDoNothing(w: World, ack: bool, rnd: Fields.Random, from: Side, key: Key)
    requires Sensible(w)
    ensures var datagram := Sealed(w, KeepaliveMessage(w, ack), rnd, []);
      datagram.Some? ==> !Brings(w, from, key, datagram.value) && !Settles(w, key, datagram.value)
  {
    var datagram := Sealed(w, KeepaliveMessage(w, ack), rnd, []);
    hide Sealed, Opened, Sensible;
    if datagram.Some? { KeepalivesAreMeaningful(w, [], [], ack, rnd); }
  }

  // ----- nothing carries a packet again once nothing does

  /** `step` reads a packet of the endpoint. */
  ghost predicate Reads(w: World, step: Step, side: Side, endpoint: u64) {
    step.Read? && step.side == side && w.decode(side, step.data) == Some(endpoint)
  }

  ghost predicate NothingRead(w: World, more: seq<Step>, side: Side, endpoint: u64) {
    forall step :: step in more ==> !Reads(w, step, side, endpoint)
  }

  lemma NothingReadBefore(w: World, more: seq<Step>, side: Side, endpoint: u64)
    requires more != [] && NothingRead(w, more, side, endpoint)
    ensures NothingRead(w, more[..|more| - 1], side, endpoint) && !Reads(w, more[|more| - 1], side, endpoint)
  {
    hide Reads;
    assert more[|more| - 1] in more;
  }

  ghost predicate SameCarriers(before: Direction, after: Direction) {
    && before.from == after.from && before.issued == after.issued && before.handled == after.handled
    && before.outbox == after.outbox && before.waiting == after.waiting
  }

  /** On the wire there are fewer datagrams, or one more that does not bring the packet. */
  ghost predicate BringsNoMore(w: World, from: Side, key: Key, wire: set<bytes>, later: set<bytes>) {
    forall datagram :: datagram in later && datagram !in wire ==> !Brings(w, from, key, datagram)
  }

  lemma SameIsUncarried(w: World, d: Direction, later: Direction, wire: set<bytes>, after: set<bytes>, key: Key)
    requires !Carried(w, d, wire, key)
    requires SameCarriers(d, later) && BringsNoMore(w, d.from, key, wire, after)
    ensures !Carried(w, later, after, key)
  {
    hide Brings, Takeable, Opened;
  }

  lemma ReadingUncarried(w: World, d: Direction, wire: set<bytes>, data: bytes, now: int, curTs: int, key: Key)
    requires w.decode(d.from, data).Some? && w.decode(d.from, data) != Some(key.endpoint) && !Carried(w, d, wire, key)
    ensures !Carried(w, Reading(w, d, data, now, curTs), wire, key)
  {
    hide Brings, Takeable, Opened, Numbering.NextID, Numbering.After;
    var later := Reading(w, d, data, now, curTs);
    forall i | 0 <= i < |later.issued| && i !in later.handled && KeyOf(later.issued[i]) == key ensures !Takeable(w, later.issued[i]) {
      assert i < |d.issued| && later.issued[i] == d.issued[i];
    }
  }

  lemma TransmittingUncarried(w: World, d: Direction, wire: set<bytes>, i: nat, datagram: Option<bytes>, key: Key)
    requires i < |d.issued| && !Carried(w, d, wire, key)
    requires datagram.Some? && KeyOf(d.issued[i]) == key ==> !Opened(w, datagram.value).Ok?
    ensures !Carried(w, Transmitting(d, i, datagram), wire, key)
  {
    hide Brings, Takeable, Opened;
  }

  lemma StoringUncarried(w: World, d: Direction, wire: set<bytes>, parcel: Parcel, rto: nat, key: Key)
    requires parcel in d.outbox && !Carried(w, d, wire, key)
    ensures !Carried(w, Storing(d, parcel, rto), wire, key)
  {
    hide Brings, Takeable, Opened;
  }

  lemma ResendingUncarried(w: World, d: Direction, wire: set<bytes>, timer: Waiting, age: int, due: int, key: Key)
    requires Kept(w, d) && timer in d.waiting && timer.due <= age < w.maxTimeout && age < due && !Carried(w, d, wire, key)
    ensures !Carried(w, Resending(d, timer, due), wire, key) && !Brings(w, d.from, key, timer.datagram)
  {
    assert timer.key == key ==> !Opened(w, timer.datagram).Ok?;
    assert Shows(w, d.from, d.issued, timer.key, timer.datagram);
    hide Shows, Takeable, Opened;
    ShownIsItsOwn(w, d.from, d.issued, timer.key, key, timer.datagram);
    hide Brings, Kept;
  }

  lemma FinishingUncarried(w: World, d: Direction, wire: set<bytes>, timer: Waiting, key: Key)
    requires !Carried(w, d, wire, key)
    ensures !Carried(w, Finishing(d, timer), wire, key)
  {
    hide Brings, Takeable, Opened;
  }

  /** A packet's datagram brings that packet only, and that one only if it can be taken in. */
  lemma SentBrings(w: World, d: Direction, wire: set<bytes>, i: nat, kind: u8, level: u8, rnd: Fields.Random, key: Key)
    requires Sensible(w) && Decoded(w, d.from, d.issued) && i < |d.issued| && i !in d.handled && !Carried(w, d, wire, key)
    ensures var datagram := Sealed(w, DataMessage(w, d.issued[i], kind, level), rnd, []);
      datagram.Some? ==>
        && (KeyOf(d.issued[i]) == key ==> !Opened(w, datagram.value).Ok?)
        && !Brings(w, d.from, key, datagram.value)
  {
    var x := d.issued[i];
    var datagram := Sealed(w, DataMessage(w, x, kind, level), rnd, []);
    hide Sealed, Opened, Sensible, DataMessage, Shows, Meaningful, Brings, OnItsWay, Unstored, Awaited;
    if datagram.Some? {
      assert x in d.issued;
      DataIsMeaningful(w, d.from, d.issued, [], x, kind, level, rnd);
      ShownIsItsOwn(w, d.from, d.issued, KeyOf(x), key, datagram.value);
      assert Opened(w, datagram.value).Ok? ==> TakenAs(w, x, kind, level, rnd);
    }
  }

  /** The step is not one of those that hand a new datagram to the network. */
  ghost predicate Silent(step: Step) {
    step.Read? || step.Drop? || step.Store? || step.Finish? || step.Lose? || step.Arrive? || step.Merge?
  }

  lemma WireStays(w: World, from: Side, key: Key, wire: set<bytes>)
    ensures BringsNoMore(w, from, key, wire, wire)
  {
  }

  lemma OneMoreBrings(w: World, from: Side, key: Key, wire: set<bytes>, datagram: Option<bytes>)
    requires datagram.Some? ==> !Brings(w, from, key, datagram.value)
    ensures BringsNoMore(w, from, key, wire, if datagram.Some? then wire + {datagram.value} else wire)
  {
    hide Brings;
  }

  lemma ElsewhereUncarried(w: World, s: State, step: Step, side: Side, key: Key)
    requires Enabled(w, s, step) && step.side != side && !Carried(w, From(s, side), Wire(s, side), key)
    ensures !Carried(w, From(Next(w, s, step), side), Wire(Next(w, s, step), side), key)
  {
    hide Carried, Next, Enabled, BringsNoMore;
    var next := Next(w, s, step);
    if step.Acknowledge? || step.Expire? {
      WakingIsLocal(w, s, step);
    } else if step.Arrive? || step.Merge? {
      TakingIsLocal(w, s, step, side);
    } else {
      SendingIsLocal(w, s, step, side);
    }
    WireStays(w, From(s, side).from, key, Wire(s, side));
    SameIsUncarried(w, From(s, side), From(next, side), Wire(s, side), Wire(next, side), key);
  }

  lemma SilentUncarried(w: World, s: State, step: Step, key: Key)
    requires Enabled(w, s, step) && Silent(step) && From(s, step.side).from == step.side
    requires !Reads(w, step, step.side, key.endpoint) && !Carried(w, From(s, step.side), Wire(s, step.side), key)
    ensures !Carried(w, From(Next(w, s, step), step.side), Wire(Next(w, s, step), step.side), key)
  {
    var side := step.side;
    var d, wire := From(s, side), Wire(s, side);
    hide Carried, Opened, Brings, Reading, Transmitting, Storing, Finishing, Merging, Accumulating, OrderOfFlushed, Sealed;
    if step.Read? {
      ReadingUncarried(w, d, wire, step.data, step.now, step.curTs, key);
    } else if step.Drop? {
      TransmittingUncarried(w, d, wire, step.i, None, key);
    } else if step.Store? {
      StoringUncarried(w, d, wire, step.parcel, step.rto, key);
    } else if step.Finish? {
      FinishingUncarried(w, d, wire, step.timer, key);
    } else {
      SameIsUncarried(w, d, From(Next(w, s, step), side), wire, Wire(Next(w, s, step), side), key);
    }
  }

  lemma TransmitUncarried(w: World, s: State, step: Step, key: Key)
    requires Sensible(w) && Inv(w, s) && Enabled(w, s, step) && step.Transmit?
    requires !Carried(w, From(s, step.side), Wire(s, step.side), key)
    ensures !Carried(w, From(Next(w, s, step), step.side), Wire(Next(w, s, step), step.side), key)
  {
    var side := step.side;
    var d, wire, next := From(s, side), Wire(s, side), Next(w, s, step);
    var datagram := Sealed(w, DataMessage(w, d.issued[step.i], step.kind, step.level), step.rnd, []);
    hide Sealed, Opened, Sensible, DataMessage, Carried, Brings, Transmitting, Numbered, Kept, Keyed, InStep, Settled, WireInv;
    SentBrings(w, d, wire, step.i, step.kind, step.level, step.rnd, key);
    TransmittingUncarried(w, d, wire, step.i, datagram, key);
    TransmittingIsLocal(d, step.i, datagram);
    OneMoreBrings(w, d.from, key, wire, datagram);
    hide Inv, BringsNoMore;
    SameIsUncarried(w, From(next, side), From(next, side), wire, Wire(next, side), key);
  }

  lemma TransmittingIsLocal(d: Direction, i: nat, datagram: Option<bytes>)
    requires i < |d.issued|
    ensures var later := Transmitting(d, i, datagram); later == d.(handled := later.handled, outbox := later.outbox)
  {
  }

  lemma KeptNow(w: World, s: State, side: Side)
    requires Inv(w, s)
    ensures Kept(w, From(s, side)) && From(s, side).from == side
  {
    hide Kept, WireInv, Numbered, Decoded, AllGenuine, InStep, Settled, Keyed;
  }

  lemma ResendUncarried(w: World, s: State, step: Step, key: Key)
    requires Inv(w, s) && Enabled(w, s, step) && step.Resend?
    requires !Carried(w, From(s, step.side), Wire(s, step.side), key)
    ensures !Carried(w, From(Next(w, s, step), step.side), Wire(Next(w, s, step), step.side), key)
  {
    var side := step.side;
    var d, wire, next := From(s, side), Wire(s, side), Next(w, s, step);
    KeptNow(w, s, side);
    hide Inv, Opened, Carried, Brings, Kept, Accumulating, OrderOfFlushed, Dispatched, Reading, Sealed, Resending, BringsNoMore;
    ResendingUncarried(w, d, wire, step.timer, step.age, step.due, key);
    ResendingIsLocal(d, step.timer, step.due);
    OneMoreBrings(w, side, key, wire, Some(step.timer.datagram));
    hide Enabled;
    SameIsUncarried(w, From(next, side), From(next, side), wire, Wire(next, side), key);
  }

  lemma ResendingIsLocal(d: Direction, timer: Waiting, due: int)
    ensures var later := Resending(d, timer, due); later == d.(waiting := later.waiting)
  {
  }

  /** A goroutine sends its datagram again only within the time limit, and then waits until
      it is older. */
  lemma ResendAdvances(w: World, s: State, step: Step)
    requires Enabled(w, s, step) && step.Resend?
    ensures var d, next, timer := From(s, step.side), Next(w, s, step), step.timer;
      && timer.due < w.maxTimeout && step.due > timer.due
      && From(next, step.side)
         == d.(waiting := d.waiting - multiset{timer} + multiset{Waiting(timer.key, timer.datagram, step.due)})
      && Wire(next, step.side) == Wire(s, step.side) + {timer.datagram}
  {
    hide Accumulating, OrderOfFlushed, Dispatched, Reading, Sealed;
  }

  /** New datagrams settle nothing but what the batch names, if there is one. */
  ghost predicate SettlesOnly(w: World, key: Key, wire: set<bytes>, later: set<bytes>, acks: Option<AckData>) {
    forall datagram :: datagram in later && datagram !in wire && Settles(w, key, datagram) ==> acks.Some? && Names(acks.value, key)
  }

  lemma FlushedSettles(w: World, d: Direction, ev: Event, rnd: Fields.Random, order: seq<u64>, from: Side, key: Key)
    requires Sensible(w) && Flushed(w, d, ev).Some? && IsOrder(order, Flushed(w, d, ev).value)
    ensures var acks := Flushed(w, d, ev).value;
      var datagram := Sealed(w, AckMessage(w, acks, SizeAlong(acks, order)), rnd, order);
      datagram.Some? ==> !Brings(w, from, key, datagram.value) && (Settles(w, key, datagram.value) ==> Names(acks, key))
  {
    hide Sealed, Sensible, Brings, Settles, Flushed, IsOrder, Fits, Names, SizeAlong, Woken, Batches;
    BatchesGrow(w, d, ev);
    BatchIsFit(w, Woken(d, ev), Flushed(w, d, ev).value, order);
    AcksSettle(w, Flushed(w, d, ev).value, rnd, order, from, key);
  }

  /** What the accumulator sends when it is woken settles only what its batch names. */
  lemma WakingSends(w: World, s: State, step: Step, from: Side, key: Key)
    requires Sensible(w) && Enabled(w, s, step) && (step.Acknowledge? || step.Expire?)
    ensures var wire, later := Wire(s, step.side), Wire(Next(w, s, step), step.side);
      && BringsNoMore(w, from, key, wire, later)
      && SettlesOnly(w, key, wire, later, Flushed(w, From(s, Other(step.side)), EventOf(s, step)))
  {
    var d, ev := From(s, Other(step.side)), EventOf(s, step);
    hide Sealed, Sensible, Brings, Settles, Flushed, IsOrder, Names, SizeAlong, Woken, Dispatched, Reading;
    if Flushed(w, d, ev).Some? { FlushedSettles(w, d, ev, step.rnd, step.order, from, key); }
  }

  lemma WakingUncarried(w: World, s: State, step: Step, key: Key)
    requires Sensible(w) && Enabled(w, s, step) && (step.Acknowledge? || step.Expire?)
    requires !Carried(w, From(s, step.side), Wire(s, step.side), key)
    ensures !Carried(w, From(Next(w, s, step), step.side), Wire(Next(w, s, step), step.side), key)
  {
    var side, next := step.side, Next(w, s, step);
    hide Carried, Next, Enabled, BringsNoMore, Settles, Sensible, EventOf;
    WakingSends(w, s, step, From(s, side).from, key);
    WakingIsLocal(w, s, step);
    SameIsUncarried(w, From(s, side), From(next, side), Wire(s, side), Wire(next, side), key);
  }

  lemma ProbeUncarried(w: World, s: State, step: Step, key: Key)
    requires Sensible(w) && Enabled(w, s, step) && step.Probe?
    requires !Carried(w, From(s, step.side), Wire(s, step.side), key)
    ensures !Carried(w, From(Next(w, s, step), step.side), Wire(Next(w, s, step), step.side), key)
  {
    var side, next := step.side, Next(w, s, step);
    hide Sealed, Opened, Sensible, Carried, Brings, Settles, KeepaliveMessage, OrderOfFlushed, Accumulating, Dispatched, Reading;
    KeepalivesDoNothing(w, step.ack, step.rnd, From(s, side).from, key);
    OneMoreBrings(w, From(s, side).from, key, Wire(s, side), Sealed(w, KeepaliveMessage(w, step.ack), step.rnd, []));
    hide BringsNoMore;
    SameIsUncarried(w, From(s, side), From(next, side), Wire(s, side), Wire(next, side), key);
  }

  /** Once nothing carries a packet, nothing will, as long as nothing is read for its endpoint. */
  lemma StepUncarried(w: World, s: State, step: Step, side: Side, key: Key)
    requires Sensible(w) && Inv(w, s) && Enabled(w, s, step) && !Reads(w, step, side, key.endpoint)
    requires !Carried(w, From(s, side), Wire(s, side), key)
    ensures !Carried(w, From(Next(w, s, step), side), Wire(Next(w, s, step), side), key)
  {
    assert From(s, step.side).from == step.side;
    hide Sensible, Inv, Enabled, Next, Carried, Reads, From, Wire;
    if step.side != side {
      ElsewhereUncarried(w, s, step, side, key);
    } else if Silent(step) {
      SilentUncarried(w, s, step, key);
    } else {
      match step
      case Transmit(_, _, _, _, _) => TransmitUncarried(w, s, step, key);
      case Resend(_, _, _, _) => ResendUncarried(w, s, step, key);
      case Probe(_, _, _) => ProbeUncarried(w, s, step, key);
      case _ => WakingUncarried(w, s, step, key);
    }
  }

  // ----- nothing acknowledges a packet again once nothing does

  /** What the accumulator holds and hands over after an event is what it held before,
      and the event's own key; if the limit holds one, nothing is left out. */
  lemma HandledNames(w: World, d: Direction, ev: Event, key: Key)
    ensures var own := ev.Acked? && Key(ev.endpoint, ev.id) == key;
      var after := Names(Batched(w.maxAck, Woken(d, ev).events).buffer.data, key)
        || (Flushed(w, d, ev).Some? && Names(Flushed(w, d, ev).value, key));
      && (after ==> Buffered(w, d, key) || own)
      && (w.maxAck >= ENDPOINT_SIZE + 4 && (Buffered(w, d, key) || own) ==> after)
  {
    OneMoreEvent(w.maxAck, d.events, ev);
    BatchesFit(w.maxAck, d.events);
    var b := Batched(w.maxAck, d.events);
    if ev.Acked? { PushKeepsFits(b.buffer, ev.endpoint, ev.id); }
    hide Batched;
  }

  lemma QueueAdvances(d: Direction, ev: Event, key: Key)
    requires !Queued(d, key)
    ensures !Queued(Woken(d, ev), key)
  {
  }

  lemma WakingOwesNot(w: World, s: State, step: Step, key: Key)
    requires Sensible(w) && Enabled(w, s, step) && (step.Acknowledge? || step.Expire?)
    requires !Owed(w, From(s, Other(step.side)), Wire(s, step.side), key)
    ensures !Owed(w, From(Next(w, s, step), Other(step.side)), Wire(Next(w, s, step), step.side), key)
  {
    var d, ev := From(s, Other(step.side)), EventOf(s, step);
    WakingSends(w, s, step, Other(step.side), key);
    WakingIsLocal(w, s, step);
    hide Sensible, Next, Settles, Flushed, Names, Woken, BringsNoMore, OrderOfFlushed, Batched;
    HandledNames(w, d, ev, key);
    QueueAdvances(d, ev, key);
    assert ev.Acked? ==> Key(ev.endpoint, ev.id) == KeyOfMessage(d.received[d.acked]);
    hide Queued, Enabled, EventOf;
    assert !AckOnItsWay(w, Wire(Next(w, s, step), step.side), key);
  }

  lemma SameOwesNot(w: World, d: Direction, later: Direction, back: set<bytes>, after: set<bytes>, key: Key)
    requires !Owed(w, d, back, key) && SettlesOnly(w, key, back, after, None)
    requires later.received == d.received && later.acked == d.acked && later.events == d.events
    ensures !Owed(w, later, after, key)
  {
    hide Settles;
  }

  lemma BackStays(w: World, key: Key, back: set<bytes>)
    ensures SettlesOnly(w, key, back, back, None)
  {
  }

  /** An arriving datagram of `step.side` brings one message or none. */
  lemma ArrivingBrings(w: World, s: State, step: Step)
    requires Enabled(w, s, step) && step.Arrive?
    ensures var d, later, n := From(s, step.side), From(Next(w, s, step), step.side), |From(s, step.side).received|;
      && later == d.(received := later.received)
      && (later.received == d.received
          || (|later.received| == n + 1 && later.received[..n] == d.received
              && Brings(w, d.from, KeyOfMessage(later.received[n]), step.datagram)))
  {
    hide Opened, Accumulating, OrderOfFlushed, Sealed;
  }

  lemma ArrivingOwesNot(w: World, s: State, step: Step, key: Key)
    requires Enabled(w, s, step) && step.Arrive? && From(s, step.side).acked <= |From(s, step.side).received|
    requires !Carried(w, From(s, step.side), Wire(s, step.side), key)
    requires !Owed(w, From(s, step.side), Wire(s, Other(step.side)), key)
    ensures !Owed(w, From(Next(w, s, step), step.side), Wire(Next(w, s, step), Other(step.side)), key)
  {
    var side := step.side;
    var d, later, n := From(s, side), From(Next(w, s, step), side), |From(s, side).received|;
    ArrivingBrings(w, s, step);
    TakingIsLocal(w, s, step, Other(side));
    assert step.datagram in Wire(s, side);
    hide Next, Enabled, Brings, Unsent, Unstored, Awaited, Batched;
    assert !Queued(later, key) by {
      forall k | later.acked <= k < |later.received| ensures KeyOfMessage(later.received[k]) != key {
        if k < n { assert later.received[k] == d.received[k]; }
      }
    }
    hide Queued, Settles;
  }

  lemma HereOwesNot(w: World, s: State, step: Step, key: Key)
    requires Enabled(w, s, step) && From(s, step.side).acked <= |From(s, step.side).received|
    requires !Carried(w, From(s, step.side), Wire(s, step.side), key)
    requires !Owed(w, From(s, step.side), Wire(s, Other(step.side)), key)
    ensures !Owed(w, From(Next(w, s, step), step.side), Wire(Next(w, s, step), Other(step.side)), key)
  {
    var side := step.side;
    hide Next, Enabled, Carried, Owed, SettlesOnly, From, Wire;
    if step.Arrive? {
      ArrivingOwesNot(w, s, step, key);
    } else {
      if step.Acknowledge? || step.Expire? {
        WakingIsLocal(w, s, step);
      } else if step.Merge? {
        TakingIsLocal(w, s, step, side);
        TakingIsLocal(w, s, step, Other(side));
      } else {
        SendingIsLocal(w, s, step, Other(side));
        SendingTakesNothing(w, s, step);
      }
      BackStays(w, key, Wire(s, Other(side)));
      SameOwesNot(w, From(s, side), From(Next(w, s, step), side), Wire(s, Other(side)), Wire(Next(w, s, step), Other(side)), key);
    }
  }

  lemma OneMoreSettles(w: World, key: Key, back: set<bytes>, datagram: Option<bytes>)
    requires datagram.Some? ==> !Settles(w, key, datagram.value)
    ensures SettlesOnly(w, key, back, if datagram.Some? then back + {datagram.value} else back, None)
  {
    hide Settles;
  }

  lemma TransmitSettlesNothing(w: World, s: State, step: Step, key: Key)
    requires Sensible(w) && Inv(w, s) && Enabled(w, s, step) && step.Transmit?
    ensures SettlesOnly(w, key, Wire(s, step.side), Wire(Next(w, s, step), step.side), None)
  {
    var d, x := From(s, step.side), From(s, step.side).issued[step.i];
    var datagram := Sealed(w, DataMessage(w, x, step.kind, step.level), step.rnd, []);
    assert Decoded(w, d.from, d.issued) && x in d.issued;
    hide Sealed, Opened, Sensible, DataMessage, Settles, Inv, Shows, Meaningful, Decoded;
    if datagram.Some? {
      DataIsMeaningful(w, d.from, d.issued, [], x, step.kind, step.level, step.rnd);
      PacketsSettleNothing(w, d.from, d.issued, KeyOf(x), key, datagram.value);
    }
    OneMoreSettles(w, key, Wire(s, step.side), datagram);
    hide SettlesOnly;
  }

  lemma ResendSettlesNothing(w: World, s: State, step: Step, key: Key)
    requires Inv(w, s) && Enabled(w, s, step) && step.Resend?
    ensures SettlesOnly(w, key, Wire(s, step.side), Wire(Next(w, s, step), step.side), None)
  {
    var d := From(s, step.side);
    KeptNow(w, s, step.side);
    hide Inv, Opened, Settles, Shows, Accumulating, OrderOfFlushed, Dispatched, Reading, Sealed, Resending;
    PacketsSettleNothing(w, d.from, d.issued, step.timer.key, key, step.timer.datagram);
    OneMoreSettles(w, key, Wire(s, step.side), Some(step.timer.datagram));
    hide SettlesOnly, Kept;
  }

  lemma ProbeSettlesNothing(w: World, s: State, step: Step, key: Key)
    requires Sensible(w) && Enabled(w, s, step) && step.Probe?
    ensures SettlesOnly(w, key, Wire(s, step.side), Wire(Next(w, s, step), step.side), None)
  {
    hide Sealed, Opened, Sensible, Brings, Settles, OrderOfFlushed, Accumulating, Dispatched, Reading;
    KeepalivesDoNothing(w, step.ack, step.rnd, step.side, key);
    OneMoreSettles(w, key, Wire(s, step.side), Sealed(w, KeepaliveMessage(w, step.ack), step.rnd, []));
    hide SettlesOnly;
  }

  lemma SilentIsSilent(w: World, s: State, step: Step, side: Side)
    requires Enabled(w, s, step) && Silent(step)
    ensures Wire(Next(w, s, step), side) <= Wire(s, side)
  {
    hide Opened, Sealed, Accumulating, OrderOfFlushed, Reading, Transmitting, Storing, Finishing, Merging;
  }

  lemma SendingSettlesNothing(w: World, s: State, step: Step, key: Key)
    requires Sensible(w) && Inv(w, s) && Enabled(w, s, step) && Sending(step)
    ensures SettlesOnly(w, key, Wire(s, step.side), Wire(Next(w, s, step), step.side), None)
  {
    hide Sensible, Inv, Enabled, Next, Settles, From, Wire;
    match step
    case Transmit(_, _, _, _, _) => TransmitSettlesNothing(w, s, step, key);
    case Resend(_, _, _, _) => ResendSettlesNothing(w, s, step, key);
    case Probe(_, _, _) => ProbeSettlesNothing(w, s, step, key);
    case _ => SilentIsSilent(w, s, step, step.side);
  }

  lemma ThereOwesNot(w: World, s: State, step: Step, key: Key)
    requires Sensible(w) && Inv(w, s) && Enabled(w, s, step)
    requires !Owed(w, From(s, Other(step.side)), Wire(s, step.side), key)
    ensures !Owed(w, From(Next(w, s, step), Other(step.side)), Wire(Next(w, s, step), step.side), key)
  {
    var side := Other(step.side);
    hide Sensible, Inv, Next, Enabled, Owed, SettlesOnly, From, Wire;
    if step.Acknowledge? || step.Expire? {
      WakingOwesNot(w, s, step, key);
    } else {
      if step.Arrive? || step.Merge? {
        TakingIsLocal(w, s, step, side);
        TakingIsLocal(w, s, step, step.side);
        BackStays(w, key, Wire(s, step.side));
      } else {
        SendingIsLocal(w, s, step, side);
        SendingSettlesNothing(w, s, step, key);
      }
      SameOwesNot(w, From(s, side), From(Next(w, s, step), side), Wire(s, step.side), Wire(Next(w, s, step), step.side), key);
    }
  }

  // ----- an entry with nothing left

  /** Something is left that carries the packet of this key, or its acknowledgement. */
  ghost predicate Hopeful(w: World, s: State, side: Side, key: Key) {
    Carried(w, From(s, side), Wire(s, side), key) || Owed(w, From(s, side), Wire(s, Other(side)), key)
  }

  lemma AckedIsBehind(w: World, s: State, side: Side)
    requires Inv(w, s)
    ensures From(s, side).acked <= |From(s, side).received|
  {
    hide WireInv, Numbered, Decoded, AllGenuine, Settled, Keyed, Kept;
  }

  /** One step of an entry that nothing can settle any more. */
  lemma HopelessStep(w: World, s: State, step: Step, side: Side, key: Key)
    requires Sensible(w) && Inv(w, s) && Enabled(w, s, step) && !Reads(w, step, side, key.endpoint)
    requires !Hopeful(w, s, side, key)
    ensures !Hopeful(w, Next(w, s, step), side, key)
    ensures key != BLANK_KEY && key in From(s, side).inFlight ==> key in From(Next(w, s, step), side).inFlight
  {
    hide Sensible, Inv, Enabled, Next, Carried, Owed, Reads, From, Wire;
    AckedIsBehind(w, s, side);
    StepUncarried(w, s, step, side, key);
    if step.side == side { HereOwesNot(w, s, step, key); } else { ThereOwesNot(w, s, step, key); }
    NothingRemoves(w, s, step, side, key);
  }

  lemma NothingRemoves(w: World, s: State, step: Step, side: Side, key: Key)
    requires Enabled(w, s, step) && !Owed(w, From(s, side), Wire(s, Other(side)), key)
    ensures key != BLANK_KEY && key in From(s, side).inFlight ==> key in From(Next(w, s, step), side).inFlight
  {
    if key != BLANK_KEY && key in From(s, side).inFlight && key !in From(Next(w, s, step), side).inFlight {
      OnlyArrivalsRemove(w, s, step, side, key);
      ArrivingSettles(w, s, step, side, key);
    }
  }

  /** An entry that nothing can settle any more stays in the table in every continuation
      in which nothing is read for its endpoint. */
  lemma {:induction false} HopelessStays(w: World, steps: seq<Step>, more: seq<Step>, side: Side, key: Key)
    requires Sensible(w) && NothingRead(w, more, side, key.endpoint)
    requires !Hopeful(w, After(w, steps), side, key) && key in From(After(w, steps), side).inFlight && key != BLANK_KEY
    ensures !Hopeful(w, After(w, steps + more), side, key) && key in From(After(w, steps + more), side).inFlight
  {
    if more == [] {
      assert steps + more == steps;
    } else {
      var front, last := more[..|more| - 1], more[|more| - 1];
      NothingReadBefore(w, more, side, key.endpoint);
      HopelessStays(w, steps, front, side, key);
      AfterLast(w, steps, more);
      AlwaysInv(w, steps + front);
      hide Sensible, Inv, Hopeful, Enabled, Next, After, Reads, NothingRead;
      if Enabled(w, After(w, steps + front), last) { HopelessStep(w, After(w, steps + front), last, side, key); }
    }
  }
}
