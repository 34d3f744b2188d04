/**
 When an entry of the retry table can still be settled. The network loses datagrams for
 good, a goroutine gives up after the maximum timeout, and every acknowledgement is sent
 once; an entry can be settled exactly while something is left that carries its packet
 or its acknowledgement.
 */
module Recovery {
  import opened Bytes
  import opened Acknowledgements
  import opened Retransmission
  import opened Protocol
  import opened ProtocolRuns
  import opened Carriers
  import AckCodec
  import Codec
  import Datagram
  import Encryptor
  import Fields
  import Numbering

  /** An acknowledgement fits a payload, and a payload with its header fits a datagram. */
  ghost predicate Dimensioned(w: World) {
    && ENDPOINT_SIZE + 4 <= w.maxAck <= w.codec.payloadSize
    && Datagram.Capacity(w.codec) < 0x1_0000
  }

  // ----- a batch gets through

  /** Contents that fit the payload fit a datagram. */
  lemma FittingIsSealed(w: World, m: Codec.Message, rnd: Fields.Random, order: seq<u64>, e: Codec.Encoded)
    requires Datagram.Capacity(w.codec) < 0x1_0000 && Datagram.Good(w.keys)
    requires m.payload.Acks? ==> IsOrder(order, m.payload.acks)
    requires Codec.EncodedPayload(Codec.Sender(w.codec, w.cmp, rnd, order), m) == Ok(e)
    requires Encryptor.GetLength(|e.payload|) <= Encryptor.GetLength(w.codec.payloadSize)
    ensures Sealed(w, m, rnd, order).Some?
  {
    var s := Codec.Sender(w.codec, w.cmp, rnd, order);
    Codec.CompressionIsKnown(s, m);
    Datagram.SealedHeader(s, w.keys, m, e);
    hide Codec.EncodedPayload, Codec.HeaderOf, Codec.HeaderBytes, Datagram.Sealed, Datagram.Good, IsOrder, Encryptor.GetLength;
  }

  lemma BatchIsEncoded(w: World, acks: AckData, rnd: Fields.Random, order: seq<u64>)
    requires IsOrder(order, acks)
    ensures var s := Codec.Sender(w.codec, w.cmp, rnd, order);
      var e := Codec.EncodedPayload(s, AckMessage(w, acks, SizeAlong(acks, order)));
      e.Ok? && |e.value.payload| == SizeAlong(acks, order)
  {
    AckCodec.EncodeLength(acks, order);
    hide IsOrder, SizeAlong, AckCodec.Encode;
  }

  lemma LongerIsLonger(a: nat, b: nat)
    requires a <= b
    ensures Encryptor.GetLength(a) <= Encryptor.GetLength(b)
  {
  }

  lemma BatchIsSealed(w: World, acks: AckData, limit: int, rnd: Fields.Random, order: seq<u64>)
    requires limit <= w.codec.payloadSize && Datagram.Capacity(w.codec) < 0x1_0000
    requires IsOrder(order, acks) && acks != map[] && Fits(AckSet(acks, SizeAlong(acks, order), limit))
    requires Datagram.Good(w.keys)
    ensures Sealed(w, AckMessage(w, acks, SizeAlong(acks, order)), rnd, order).Some?
  {
    BatchIsEncoded(w, acks, rnd, order);
    var size := SizeAlong(acks, order);
    assert size <= w.codec.payloadSize;
    LongerIsLonger(size, w.codec.payloadSize);
    hide IsOrder, Fits, SizeAlong, Codec.EncodedPayload, Sealed, Datagram.Good, Encryptor.GetLength;
    var e := Codec.EncodedPayload(Codec.Sender(w.codec, w.cmp, rnd, order), AckMessage(w, acks, size)).value;
    FittingIsSealed(w, AckMessage(w, acks, size), rnd, order, e);
  }

  /** A batch can always be sent, and the other side always understands it. */
  lemma BatchGetsThrough(w: World, acks: AckData, limit: int, rnd: Fields.Random, order: seq<u64>)
    requires Sensible(w) && limit <= w.codec.payloadSize && Datagram.Capacity(w.codec) < 0x1_0000
    requires IsOrder(order, acks) && acks != map[] && Fits(AckSet(acks, SizeAlong(acks, order), limit))
    ensures var datagram := Sealed(w, AckMessage(w, acks, SizeAlong(acks, order)), rnd, order);
      && datagram.Some?
      && var r := Opened(w, datagram.value);
        && r.Ok? && r.value.sessionID == w.session && r.value.typ == Codec.DATA && r.value.isACK
        && r.value.payload.Acks? && r.value.payload.acks == acks
  {
    BatchIsSealed(w, acks, limit, rnd, order);
    hide Sealed, Opened, Sensible, SizeAlong, IsOrder;
    AcksAreMeaningful(w, [], [acks], acks, SizeAlong(acks, order), order, rnd);
  }

  // ----- what nobody in the program decides

  /** Every map can be iterated in some order. */
  ghost function SomeOrder(data: AckData): (order: seq<u64>)
    ensures IsOrder(order, data)
    decreases |data|
  {
    if data == map[] then []
    else
      var e :| e in data;
      SomeOrder(data - {e}) + [e]
  }

  /** For the n-th event of the accumulator: its clock readings and waiting time, and the
      random draws of what it sends then; and how maps iterate. */
  datatype Outside = Outside(clock: nat -> (int, int, int), rnd: nat -> Fields.Random, orderOf: AckData -> seq<u64>)

  ghost predicate Lawful(out: Outside) {
    forall data :: IsOrder(out.orderOf(data), data)
  }

  /** Maps can be iterated in some order, whatever else is decided. */
  lemma SomeOutside(clock: nat -> (int, int, int), rnd: nat -> Fields.Random) returns (out: Outside)
    ensures Lawful(out) && out.clock == clock && out.rnd == rnd
  {
    out := Outside(clock, rnd, data => SomeOrder(data));
  }

  /** An accumulator is woken as the outside decides. */
  ghost predicate Decided(s: State, step: Step, out: Outside) {
    step.Acknowledge? || step.Expire? ==>
      var n := |From(s, Other(step.side)).events|;
      && (step.Acknowledge? ==> (step.firstNow, step.now, step.wait) == out.clock(n))
      && step.rnd == out.rnd(n)
      && exists data :: step.order == out.orderOf(data)
  }

  ghost predicate AsDecided(w: World, steps: seq<Step>, more: seq<Step>, out: Outside) {
    more != [] ==>
      var front, last := more[..|more| - 1], more[|more| - 1];
      AsDecided(w, steps, front, out) && Decided(After(w, steps + front), last, out)
  }

  lemma {:induction false} DecidedChain(w: World, steps: seq<Step>, one: seq<Step>, two: seq<Step>, out: Outside)
    requires AsDecided(w, steps, one, out) && AsDecided(w, steps + one, two, out)
    ensures AsDecided(w, steps, one + two, out)
  {
    hide After, Decided;
    if two == [] {
      assert one + two == one;
    } else {
      var front, last := two[..|two| - 1], two[|two| - 1];
      DecidedChain(w, steps, one, front, out);
      var all := one + two;
      assert all[..|all| - 1] == one + front && all[|all| - 1] == last;
      assert steps + (one + front) == (steps + one) + front;
    }
  }

  lemma DecidedOne(w: World, steps: seq<Step>, step: Step, out: Outside)
    requires Decided(After(w, steps), step, out)
    ensures AsDecided(w, steps, [step], out)
  {
    assert [step][..0] == [] && steps + [] == steps;
    assert AsDecided(w, steps, [], out);
  }

  // ----- what is owed can be acknowledged

  lemma FlushedGetsThrough(w: World, d: Direction, ev: Event, rnd: Fields.Random, order: seq<u64>, key: Key)
    requires Sensible(w) && Dimensioned(w)
    requires Flushed(w, d, ev).Some? && Names(Flushed(w, d, ev).value, key) && IsOrder(order, Flushed(w, d, ev).value)
    ensures var acks := Flushed(w, d, ev).value;
      var datagram := Sealed(w, AckMessage(w, acks, SizeAlong(acks, order)), rnd, order);
      datagram.Some? && Settles(w, key, datagram.value)
  {
    var acks := Flushed(w, d, ev).value;
    hide Sealed, Opened, Sensible, Flushed, IsOrder, Fits, Names, SizeAlong, Woken, Batches;
    BatchesGrow(w, d, ev);
    BatchIsFit(w, Woken(d, ev), acks, order);
    BatchGetsThrough(w, acks, w.maxAck, rnd, order);
  }

  /** What the accumulator hands over is on its way at once. */
  lemma FlushedIsOnItsWay(w: World, s: State, step: Step, key: Key)
    requires Sensible(w) && Dimensioned(w) && Enabled(w, s, step) && (step.Acknowledge? || step.Expire?)
    requires var flushed := Flushed(w, From(s, Other(step.side)), EventOf(s, step)); flushed.Some? && Names(flushed.value, key)
    ensures AckOnItsWay(w, Wire(Next(w, s, step), step.side), key)
  {
    var d, ev := From(s, Other(step.side)), EventOf(s, step);
    var acks := Flushed(w, d, ev).value;
    hide Sealed, Settles, Sensible, Dimensioned, Flushed, IsOrder, Names, SizeAlong, Woken, Dispatched, Reading;
    FlushedGetsThrough(w, d, ev, step.rnd, step.order, key);
    assert Sealed(w, AckMessage(w, acks, SizeAlong(acks, step.order)), step.rnd, step.order).value in Wire(Next(w, s, step), step.side);
  }

  /** The accumulator of the other side can be woken as the outside decides. */
  lemma Waking(w: World, s: State, side: Side, out: Outside, expire: bool) returns (step: Step)
    requires Lawful(out) && (!expire ==> From(s, side).acked < |From(s, side).received|)
    ensures step.side == Other(side) && (if expire then step.Expire? else step.Acknowledge?)
    ensures Enabled(w, s, step) && Decided(s, step, out)
  {
    var d, n := From(s, side), |From(s, side).events|;
    hide Flushed, IsOrder;
    var (firstNow, now, wait) := out.clock(n);
    var ev := if expire then Expired else NextAcked(d, firstNow, now, wait);
    var acks := Flushed(w, d, ev);
    var order := out.orderOf(if acks.Some? then acks.value else map[]);
    step := if expire then Expire(Other(side), out.rnd(n), order) else Acknowledge(Other(side), firstNow, now, wait, out.rnd(n), order);
  }

  lemma SettleOnItsWay(w: World, steps: seq<Step>, side: Side, key: Key, out: Outside) returns (more: seq<Step>)
    requires AckOnItsWay(w, Wire(After(w, steps), Other(side)), key)
    ensures AsDecided(w, steps, more, out) && ReadsNothing(more)
    ensures key !in From(After(w, steps + more), side).inFlight
  {
    var datagram :| datagram in Wire(After(w, steps), Other(side)) && Settles(w, key, datagram);
    var step := Arrive(Other(side), datagram);
    AfterMore(w, steps, step);
    DecidedOne(w, steps, step, out);
    more := [step];
    hide Opened, After, AsDecided;
  }

  ghost predicate ReadsNothing(more: seq<Step>) {
    forall step :: step in more ==> !step.Read?
  }

  lemma OneAndRest(w: World, steps: seq<Step>, step: Step, rest: seq<Step>, out: Outside)
    requires Decided(After(w, steps), step, out) && !step.Read?
    requires AsDecided(w, steps + [step], rest, out) && ReadsNothing(rest)
    ensures AsDecided(w, steps, [step] + rest, out) && ReadsNothing([step] + rest)
    ensures steps + ([step] + rest) == (steps + [step]) + rest
  {
    hide AsDecided, Decided, After;
    DecidedOne(w, steps, step, out);
    DecidedChain(w, steps, [step], rest, out);
    assert steps + ([step] + rest) == (steps + [step]) + rest;
  }

  lemma SettleBuffered(w: World, steps: seq<Step>, side: Side, key: Key, out: Outside) returns (more: seq<Step>)
    requires Sensible(w) && Dimensioned(w) && Lawful(out)
    requires Buffered(w, From(After(w, steps), side), key)
    ensures AsDecided(w, steps, more, out) && ReadsNothing(more)
    ensures key !in From(After(w, steps + more), side).inFlight
  {
    var s := After(w, steps);
    var step := Waking(w, s, side, out, true);
    AfterMore(w, steps, step);
    HandledNames(w, From(s, side), Expired, key);
    OneMoreEvent(w.maxAck, From(s, side).events, Expired);
    assert !Names(Batched(w.maxAck, Woken(From(s, side), Expired).events).buffer.data, key);
    hide After, Sensible, Dimensioned, Lawful, AsDecided, Decided, Enabled, Next, Batched, Flushed, Names, Buffered, AckOnItsWay;
    FlushedIsOnItsWay(w, s, step, key);
    var rest := SettleOnItsWay(w, steps + [step], side, key, out);
    OneAndRest(w, steps, step, rest, out);
    more := [step] + rest;
  }

  /** After the accumulator has taken the message, its key is buffered or on its way. */
  lemma TakenIsOwed(w: World, s: State, step: Step, key: Key)
    requires Sensible(w) && Dimensioned(w) && Enabled(w, s, step) && step.Acknowledge?
    requires KeyOfMessage(From(s, Other(step.side)).received[From(s, Other(step.side)).acked]) == key
    ensures Buffered(w, From(Next(w, s, step), Other(step.side)), key) || AckOnItsWay(w, Wire(Next(w, s, step), step.side), key)
  {
    var d, ev := From(s, Other(step.side)), EventOf(s, step);
    HandledNames(w, d, ev, key);
    WakingIsLocal(w, s, step);
    hide Sensible, Next, Flushed, Names, OrderOfFlushed, Batched, AckOnItsWay;
    if Flushed(w, d, ev).Some? && Names(Flushed(w, d, ev).value, key) { FlushedIsOnItsWay(w, s, step, key); }
  }

  lemma {:induction false} SettleQueued(w: World, steps: seq<Step>, side: Side, key: Key, k: nat, out: Outside) returns (more: seq<Step>)
    requires Sensible(w) && Dimensioned(w) && Lawful(out)
    requires var d := From(After(w, steps), side); d.acked <= k < |d.received| && KeyOfMessage(d.received[k]) == key
    ensures AsDecided(w, steps, more, out) && ReadsNothing(more)
    ensures key !in From(After(w, steps + more), side).inFlight
    decreases k - From(After(w, steps), side).acked
  {
    var s := After(w, steps);
    var step := Waking(w, s, side, out, false);
    AfterMore(w, steps, step);
    WakingIsLocal(w, s, step);
    hide After, Sensible, Dimensioned, Lawful, AsDecided, Decided, Next, Batched, Flushed, Names, Buffered, AckOnItsWay, OrderOfFlushed;
    var rest;
    if From(s, side).acked == k {
      TakenIsOwed(w, s, step, key);
      if Buffered(w, From(Next(w, s, step), side), key) {
        rest := SettleBuffered(w, steps + [step], side, key, out);
      } else {
        rest := SettleOnItsWay(w, steps + [step], side, key, out);
      }
    } else {
      rest := SettleQueued(w, steps + [step], side, key, k, out);
    }
    hide Enabled;
    OneAndRest(w, steps, step, rest, out);
    more := [step] + rest;
  }

  /** What is owed can be acknowledged, whatever the outside decides. */
  lemma OwedCanBeSettled(w: World, steps: seq<Step>, side: Side, key: Key, out: Outside) returns (more: seq<Step>)
    requires Sensible(w) && Dimensioned(w) && Lawful(out)
    requires Owed(w, From(After(w, steps), side), Wire(After(w, steps), Other(side)), key)
    ensures AsDecided(w, steps, more, out) && ReadsNothing(more)
    ensures key !in From(After(w, steps + more), side).inFlight
  {
    hide After, Sensible, Dimensioned, Lawful, AsDecided, AckOnItsWay, Buffered;
    if AckOnItsWay(w, Wire(After(w, steps), Other(side)), key) {
      more := SettleOnItsWay(w, steps, side, key, out);
    } else if Buffered(w, From(After(w, steps), side), key) {
      more := SettleBuffered(w, steps, side, key, out);
    } else {
      var d := From(After(w, steps), side);
      var k :| d.acked <= k < |d.received| && KeyOfMessage(d.received[k]) == key;
      more := SettleQueued(w, steps, side, key, k, out);
    }
  }

  // ----- what is carried can be received

  /** From `s` to `next` the packets other than that of `key` stay carried. */
  ghost predicate OthersStay(w: World, s: State, next: State, side: Side, key: Key) {
    forall other :: other != key && Carried(w, From(s, side), Wire(s, side), other) ==>
      Carried(w, From(next, side), Wire(next, side), other)
  }

  /** The receiving end of a direction, and what was read, are as before. */
  ghost predicate ReceiverStays(d: Direction, later: Direction) {
    && later.from == d.from && later.packets == d.packets && later.issued == d.issued
    && later.received == d.received && later.merged == d.merged && later.acked == d.acked && later.events == d.events
  }

  ghost predicate Nearer(w: World, s: State, next: State, side: Side, key: Key) {
    ReceiverStays(From(s, side), From(next, side)) && OthersStay(w, s, next, side, key)
  }

  lemma CarriedStays(w: World, d: Direction, later: Direction, wire: set<bytes>, after: set<bytes>, key: Key)
    requires Carried(w, d, wire, key)
    requires later.from == d.from && later.issued == d.issued && wire <= after
    requires forall i :: 0 <= i < |d.issued| && i !in d.handled && KeyOf(d.issued[i]) == key ==> i !in later.handled
    requires forall parcel :: parcel in d.outbox && parcel.key == key ==> parcel in later.outbox
    requires forall timer :: timer in d.waiting && timer.key == key ==> timer in later.waiting
    ensures Carried(w, later, after, key)
  {
    hide Brings, Takeable, Opened;
  }

  lemma TransmittingStays(w: World, d: Direction, wire: set<bytes>, after: set<bytes>, i: nat, datagram: Option<bytes>, key: Key)
    requires i < |d.issued| && KeyOf(d.issued[i]) != key && wire <= after && Carried(w, d, wire, key)
    ensures Carried(w, Transmitting(d, i, datagram), after, key)
  {
    hide Carried;
    CarriedStays(w, d, Transmitting(d, i, datagram), wire, after, key);
  }

  lemma StoringStays(w: World, d: Direction, wire: set<bytes>, parcel: Parcel, rto: nat, key: Key)
    requires parcel.key != key && Carried(w, d, wire, key)
    ensures Carried(w, Storing(d, parcel, rto), wire, key)
  {
    hide Carried;
    CarriedStays(w, d, Storing(d, parcel, rto), wire, wire, key);
  }

  lemma ResendingStays(w: World, d: Direction, wire: set<bytes>, after: set<bytes>, timer: Waiting, due: int, key: Key)
    requires timer.key != key && wire <= after && Carried(w, d, wire, key)
    ensures Carried(w, Resending(d, timer, due), after, key)
  {
    hide Carried;
    CarriedStays(w, d, Resending(d, timer, due), wire, after, key);
  }

  lemma TransmitTo(w: World, s: State, step: Step)
    requires Enabled(w, s, step) && step.Transmit?
    ensures var d, side := From(s, step.side), step.side;
      var datagram := Sealed(w, DataMessage(w, d.issued[step.i], step.kind, step.level), step.rnd, []);
      && From(Next(w, s, step), side) == Transmitting(d, step.i, datagram)
      && Wire(Next(w, s, step), side) == Wire(s, side) + (if datagram.Some? then {datagram.value} else {})
  {
    hide Sealed, DataMessage, Transmitting;
  }

  lemma TransmitNears(w: World, s: State, step: Step, key: Key)
    requires Enabled(w, s, step) && step.Transmit? && KeyOf(From(s, step.side).issued[step.i]) == key
    ensures Nearer(w, s, Next(w, s, step), step.side, key)
  {
    var d, side, next := From(s, step.side), step.side, Next(w, s, step);
    var datagram := Sealed(w, DataMessage(w, d.issued[step.i], step.kind, step.level), step.rnd, []);
    TransmitTo(w, s, step);
    TransmittingIsLocal(d, step.i, datagram);
    hide Sealed, DataMessage, Transmitting, Next, Carried, From, Wire, Enabled;
    forall other | other != key && Carried(w, d, Wire(s, side), other) ensures Carried(w, From(next, side), Wire(next, side), other) {
      TransmittingStays(w, d, Wire(s, side), Wire(next, side), step.i, datagram, other);
    }
  }

  lemma SentBringsIt(w: World, d: Direction, x: Issued, kind: u8, level: u8, rnd: Fields.Random)
    requires Sensible(w) && Decoded(w, d.from, d.issued) && x in d.issued && TakenAs(w, x, kind, level, rnd)
    ensures Brings(w, d.from, KeyOf(x), Sealed(w, DataMessage(w, x, kind, level), rnd, []).value)
  {
    var datagram := Sealed(w, DataMessage(w, x, kind, level), rnd, []);
    hide Sealed, Opened, Sensible, DataMessage, Shows, Meaningful, Brings;
    DataIsMeaningful(w, d.from, d.issued, [], x, kind, level, rnd);
    ShownIsItsOwn(w, d.from, d.issued, KeyOf(x), KeyOf(x), datagram.value);
  }

  lemma SendIt(w: World, s: State, step: Step)
    requires Sensible(w) && Enabled(w, s, step) && step.Transmit?
    requires var d := From(s, step.side);
      Decoded(w, d.from, d.issued) && TakenAs(w, d.issued[step.i], step.kind, step.level, step.rnd)
    ensures OnItsWay(w, From(Next(w, s, step), step.side), Wire(Next(w, s, step), step.side), KeyOf(From(s, step.side).issued[step.i]))
  {
    var d, x := From(s, step.side), From(s, step.side).issued[step.i];
    var datagram := Sealed(w, DataMessage(w, x, step.kind, step.level), step.rnd, []);
    hide Sealed, Opened, Sensible, DataMessage, Decoded, Brings, Transmitting, Next, From, Wire;
    SentBringsIt(w, d, x, step.kind, step.level, step.rnd);
    TransmitTo(w, s, step);
    TransmittingIsLocal(d, step.i, datagram);
    assert datagram.value in Wire(Next(w, s, step), step.side);
  }

  /** A packet no handler has had can be sent so that it is on its way. */
  lemma SendUnsent(w: World, s: State, side: Side, key: Key) returns (step: Step)
    requires Sensible(w) && Inv(w, s) && Unsent(w, From(s, side), key)
    ensures Enabled(w, s, step) && step.Transmit? && Nearer(w, s, Next(w, s, step), side, key)
    ensures OnItsWay(w, From(Next(w, s, step), side), Wire(Next(w, s, step), side), key)
  {
    var d := From(s, side);
    var i :| 0 <= i < |d.issued| && i !in d.handled && KeyOf(d.issued[i]) == key && Takeable(w, d.issued[i]);
    var kind, level, rnd :| TakenAs(w, d.issued[i], kind, level, rnd);
    step := Transmit(side, i, kind, level, rnd);
    assert Decoded(w, d.from, d.issued);
    assert Enabled(w, s, step);
    hide *;
    SendIt(w, s, step);
    TransmitNears(w, s, step, key);
  }

  /** A goroutine can start in time to send its datagram again. */
  lemma StoreUnstored(w: World, s: State, side: Side, key: Key) returns (step: Step)
    requires Unstored(w, From(s, side), key)
    ensures Enabled(w, s, step) && step.Store? && Nearer(w, s, Next(w, s, step), side, key)
    ensures Awaited(w, From(Next(w, s, step), side), key)
  {
    var d := From(s, side);
    var parcel :| parcel in d.outbox && parcel.key == key && Opened(w, parcel.datagram).Ok?;
    step := Store(side, parcel, 0);
    hide Opened, Carried, Accumulating, OrderOfFlushed, Dispatched, Reading, Sealed;
    var next := Next(w, s, step);
    assert Waiting(key, parcel.datagram, 0) in From(next, side).waiting;
    forall other | other != key && Carried(w, d, Wire(s, side), other) ensures Carried(w, From(next, side), Wire(next, side), other) {
      StoringStays(w, d, Wire(s, side), parcel, 0, other);
    }
  }

  lemma ResendTo(w: World, s: State, step: Step)
    requires Enabled(w, s, step) && step.Resend?
    ensures var d, side := From(s, step.side), step.side;
      && From(Next(w, s, step), side) == Resending(d, step.timer, step.due)
      && Wire(Next(w, s, step), side) == Wire(s, side) + {step.timer.datagram}
  {
    hide Accumulating, OrderOfFlushed, Dispatched, Reading, Sealed, Resending;
  }

  lemma ResendNears(w: World, s: State, step: Step)
    requires Enabled(w, s, step) && step.Resend?
    ensures Nearer(w, s, Next(w, s, step), step.side, step.timer.key)
  {
    var d, side, next := From(s, step.side), step.side, Next(w, s, step);
    ResendTo(w, s, step);
    ResendingIsLocal(d, step.timer, step.due);
    hide Resending, Next, Carried, From, Wire, Enabled;
    forall other | other != step.timer.key && Carried(w, d, Wire(s, side), other)
      ensures Carried(w, From(next, side), Wire(next, side), other)
    {
      ResendingStays(w, d, Wire(s, side), Wire(next, side), step.timer, step.due, other);
    }
  }

  lemma KeptBrings(w: World, d: Direction, timer: Waiting)
    requires Kept(w, d) && timer in d.waiting && Opened(w, timer.datagram).Ok?
    ensures Brings(w, d.from, timer.key, timer.datagram)
  {
    hide Opened, Shows, Brings;
    ShownIsItsOwn(w, d.from, d.issued, timer.key, timer.key, timer.datagram);
  }

  lemma BringsNow(w: World, d: Direction, wire: set<bytes>, key: Key, datagram: bytes)
    requires datagram in wire && Brings(w, d.from, key, datagram)
    ensures OnItsWay(w, d, wire, key)
  {
  }

  /** A goroutine whose timer can fire in time can put its datagram on its way again. */
  lemma ResendAwaited(w: World, s: State, side: Side, key: Key) returns (step: Step)
    requires Inv(w, s) && Awaited(w, From(s, side), key)
    ensures Enabled(w, s, step) && step.Resend? && Nearer(w, s, Next(w, s, step), side, key)
    ensures OnItsWay(w, From(Next(w, s, step), side), Wire(Next(w, s, step), side), key)
  {
    var d := From(s, side);
    var timer :| timer in d.waiting && timer.key == key && timer.due < w.maxTimeout && Opened(w, timer.datagram).Ok?;
    step := Resend(side, timer, timer.due, timer.due + 1);
    assert Enabled(w, s, step);
    hide *;
    KeptNow(w, s, side);
    KeptBrings(w, d, timer);
    ResendTo(w, s, step);
    ResendingIsLocal(d, timer, timer.due + 1);
    ResendNears(w, s, step);
    BringsNow(w, From(Next(w, s, step), side), Wire(Next(w, s, step), side), key, timer.datagram);
  }

  /** One message more has been received, under `key`, and nothing else changed for the
      receiving end. */
  ghost predicate OneReceived(d: Direction, later: Direction, key: Key) {
    && later.from == d.from && later.packets == d.packets && later.issued == d.issued
    && |later.received| == |d.received| + 1 && later.received[..|d.received|] == d.received
    && KeyOfMessage(later.received[|d.received|]) == key
    && later.merged == d.merged && later.acked == d.acked && later.events == d.events
  }

  lemma ArriveTo(w: World, s: State, step: Step)
    requires Enabled(w, s, step) && step.Arrive? && Opened(w, step.datagram).Ok? && Receivable(w, Opened(w, step.datagram).value)
    ensures var d, side := From(s, step.side), step.side;
      && From(Next(w, s, step), side) == Receiving(w, d, Opened(w, step.datagram).value)
      && Wire(Next(w, s, step), side) == Wire(s, side)
  {
    hide Opened, Accumulating, OrderOfFlushed, Reading, Sealed, Receiving;
  }

  lemma ReceiveOnItsWay(w: World, s: State, side: Side, key: Key) returns (step: Step)
    requires OnItsWay(w, From(s, side), Wire(s, side), key)
    ensures Enabled(w, s, step) && step.Arrive? && OthersStay(w, s, Next(w, s, step), side, key)
    ensures OneReceived(From(s, side), From(Next(w, s, step), side), key)
  {
    var d := From(s, side);
    var datagram :| datagram in Wire(s, side) && Brings(w, d.from, key, datagram);
    step := Arrive(side, datagram);
    var next := Next(w, s, step);
    ArriveTo(w, s, step);
    hide Opened, Carried, Next, Enabled, From, Wire;
    forall other | other != key && Carried(w, d, Wire(s, side), other) ensures Carried(w, From(next, side), Wire(next, side), other) {
      CarriedStays(w, d, From(next, side), Wire(s, side), Wire(next, side), other);
    }
  }

  /** Steps that bring a packet to the other side. */
  ghost predicate OnlyBringing(more: seq<Step>) {
    forall step :: step in more ==> step.Transmit? || step.Store? || step.Resend? || step.Arrive?
  }

  ghost predicate Brought(w: World, s: State, next: State, side: Side, key: Key) {
    OneReceived(From(s, side), From(next, side), key) && OthersStay(w, s, next, side, key)
  }

  lemma NearerAndBrought(w: World, s: State, middle: State, next: State, side: Side, key: Key)
    requires Nearer(w, s, middle, side, key) && Brought(w, middle, next, side, key)
    ensures Brought(w, s, next, side, key)
  {
    hide Carried;
  }

  lemma ReceiveCarriedOnItsWay(w: World, steps: seq<Step>, side: Side, key: Key) returns (more: seq<Step>)
    requires OnItsWay(w, From(After(w, steps), side), Wire(After(w, steps), side), key)
    ensures OnlyBringing(more) && Brought(w, After(w, steps), After(w, steps + more), side, key)
  {
    var step := ReceiveOnItsWay(w, After(w, steps), side, key);
    AfterMore(w, steps, step);
    hide After, Next, Enabled, OthersStay, OneReceived;
    more := [step];
  }

  lemma MoreBringing(one: seq<Step>, two: seq<Step>)
    requires OnlyBringing(one) && OnlyBringing(two)
    ensures OnlyBringing(one + two)
  {
  }

  lemma StepThenBrought(w: World, steps: seq<Step>, step: Step, rest: seq<Step>, side: Side, key: Key) returns (more: seq<Step>)
    requires Enabled(w, After(w, steps), step) && OnlyBringing([step])
    requires Nearer(w, After(w, steps), Next(w, After(w, steps), step), side, key)
    requires OnlyBringing(rest) && Brought(w, After(w, steps + [step]), After(w, steps + [step] + rest), side, key)
    ensures OnlyBringing(more) && Brought(w, After(w, steps), After(w, steps + more), side, key)
  {
    AfterMore(w, steps, step);
    hide After, Next, Enabled, Nearer, Brought;
    more := [step] + rest;
    MoreBringing([step], rest);
    hide OnlyBringing;
    ConcatIsAssociative(steps, [step], rest);
    NearerAndBrought(w, After(w, steps), After(w, steps + [step]), After(w, steps + more), side, key);
  }

  lemma ReceiveAwaited(w: World, steps: seq<Step>, side: Side, key: Key) returns (more: seq<Step>)
    requires Sensible(w) && Awaited(w, From(After(w, steps), side), key)
    ensures OnlyBringing(more) && Brought(w, After(w, steps), After(w, steps + more), side, key)
  {
    AlwaysInv(w, steps);
    var step := ResendAwaited(w, After(w, steps), side, key);
    AfterMore(w, steps, step);
    hide After, Next, Enabled, Nearer, Brought, Inv, OnItsWay, Awaited;
    var rest := ReceiveCarriedOnItsWay(w, steps + [step], side, key);
    more := StepThenBrought(w, steps, step, rest, side, key);
  }

  lemma ReceiveUnstored(w: World, steps: seq<Step>, side: Side, key: Key) returns (more: seq<Step>)
    requires Sensible(w) && Unstored(w, From(After(w, steps), side), key)
    ensures OnlyBringing(more) && Brought(w, After(w, steps), After(w, steps + more), side, key)
  {
    var step := StoreUnstored(w, After(w, steps), side, key);
    AfterMore(w, steps, step);
    hide After, Next, Enabled, Nearer, Brought, Awaited, Unstored;
    var rest := ReceiveAwaited(w, steps + [step], side, key);
    more := StepThenBrought(w, steps, step, rest, side, key);
  }

  lemma ReceiveUnsent(w: World, steps: seq<Step>, side: Side, key: Key) returns (more: seq<Step>)
    requires Sensible(w) && Unsent(w, From(After(w, steps), side), key)
    ensures OnlyBringing(more) && Brought(w, After(w, steps), After(w, steps + more), side, key)
  {
    AlwaysInv(w, steps);
    var step := SendUnsent(w, After(w, steps), side, key);
    AfterMore(w, steps, step);
    assert OnlyBringing([step]);
    hide *;
    var rest := ReceiveCarriedOnItsWay(w, steps + [step], side, key);
    more := StepThenBrought(w, steps, step, rest, side, key);
  }

  /** What is carried can be received, and nothing else need be lost for it. */
  lemma CarriedCanBeReceived(w: World, steps: seq<Step>, side: Side, key: Key) returns (more: seq<Step>)
    requires Sensible(w) && Carried(w, From(After(w, steps), side), Wire(After(w, steps), side), key)
    ensures OnlyBringing(more) && Brought(w, After(w, steps), After(w, steps + more), side, key)
  {
    var s := After(w, steps);
    AlwaysInv(w, steps);
    hide After, Next, Enabled, Nearer, Brought, Inv, OnItsWay, Awaited, Unsent, Unstored, Sensible, OnlyBringing;
    if OnItsWay(w, From(s, side), Wire(s, side), key) {
      more := ReceiveCarriedOnItsWay(w, steps, side, key);
    } else if Awaited(w, From(s, side), key) {
      more := ReceiveAwaited(w, steps, side, key);
    } else if Unstored(w, From(s, side), key) {
      more := ReceiveUnstored(w, steps, side, key);
    } else {
      more := ReceiveUnsent(w, steps, side, key);
    }
  }

  // ----- when an entry can be settled

  lemma {:induction false} BringingIsDecided(w: World, steps: seq<Step>, more: seq<Step>, out: Outside)
    requires OnlyBringing(more)
    ensures AsDecided(w, steps, more, out) && ReadsNothing(more)
  {
    if more != [] {
      var front, last := more[..|more| - 1], more[|more| - 1];
      assert last in more && forall step :: step in front ==> step in more;
      BringingIsDecided(w, steps, front, out);
    }
  }

  lemma ReceivedIsQueued(w: World, steps: seq<Step>, front: seq<Step>, side: Side, key: Key)
    requires Sensible(w) && OneReceived(From(After(w, steps), side), From(After(w, steps + front), side), key)
    ensures Queued(From(After(w, steps + front), side), key)
  {
    DirectionAlways(w, steps, side);
    hide After, Numbered, Decoded, AllGenuine, Settled, Keyed, Kept;
    var d, later := From(After(w, steps), side), From(After(w, steps + front), side);
    assert later.acked <= |d.received| && KeyOfMessage(later.received[|d.received|]) == key;
  }

  /** While something carries a packet or its acknowledgement, its entry can be settled,
      whatever the outside decides. */
  lemma HopefulCanBeSettled(w: World, steps: seq<Step>, side: Side, key: Key, out: Outside) returns (more: seq<Step>)
    requires Sensible(w) && Dimensioned(w) && Lawful(out) && Hopeful(w, After(w, steps), side, key)
    ensures AsDecided(w, steps, more, out) && ReadsNothing(more)
    ensures key !in From(After(w, steps + more), side).inFlight
  {
    hide After, Sensible, Dimensioned, Lawful, AsDecided, Carried, OnlyBringing, OthersStay, OneReceived, Queued, AckOnItsWay, Buffered;
    if Carried(w, From(After(w, steps), side), Wire(After(w, steps), side), key) {
      var front := CarriedCanBeReceived(w, steps, side, key);
      BringingIsDecided(w, steps, front, out);
      ReceivedIsQueued(w, steps, front, side, key);
      var rest := OwedCanBeSettled(w, steps + front, side, key, out);
      DecidedChain(w, steps, front, rest, out);
      more := front + rest;
      assert steps + more == (steps + front) + rest;
    } else {
      more := OwedCanBeSettled(w, steps, side, key, out);
    }
  }

  ghost predicate CanBeSettled(w: World, steps: seq<Step>, side: Side, key: Key) {
    exists more :: NothingRead(w, more, side, key.endpoint) && key !in From(After(w, steps + more), side).inFlight
  }

  /** An entry can be settled, without anything more being read for its endpoint, exactly
      while something carries its packet or its acknowledgement. */
  lemma EntryCanBeSettledIff(w: World, steps: seq<Step>, side: Side, key: Key)
    requires Sensible(w) && Dimensioned(w)
    requires key in From(After(w, steps), side).inFlight && key != BLANK_KEY
    ensures CanBeSettled(w, steps, side, key) <==> Hopeful(w, After(w, steps), side, key)
  {
    hide After, Sensible, Dimensioned, Hopeful, AsDecided;
    if Hopeful(w, After(w, steps), side, key) {
      var out := SomeOutside(n => (0, 0, 0), n => Fields.Random(0, k => 0));
      var more := HopefulCanBeSettled(w, steps, side, key, out);
      assert NothingRead(w, more, side, key.endpoint);
    } else {
      forall more | NothingRead(w, more, side, key.endpoint) ensures key in From(After(w, steps + more), side).inFlight {
        HopelessStays(w, steps, more, side, key);
      }
    }
  }

  // ----- an entry that is stuck

  /** A packet is read, sent and stored; its datagram is lost, and its goroutine ends. */
  function GivenUp(x: Issued, now: int, curTs: int, kind: u8, level: u8, rnd: Fields.Random, rto: nat, datagram: bytes): seq<Step> {
    [Read(Client, x.data, now, curTs), Transmit(Client, 0, kind, level, rnd), Store(Client, Parcel(KeyOf(x), datagram), rto),
     Lose(Client, datagram), Finish(Client, Waiting(KeyOf(x), datagram, rto))]
  }

  ghost predicate HasGivenUp(s: State, x: Issued, datagram: bytes) {
    && s.client.from == Client && s.client.issued == [x] && s.client.handled == {0}
    && s.client.outbox == multiset{} && s.client.waiting == multiset{} && s.client.inFlight == map[KeyOf(x) := datagram]
    && s.client.received == [] && s.client.events == [] && s.fromClient == {} && s.fromServer == {}
  }

  function SentOne(x: Issued, now: int, curTs: int, datagram: bytes): Direction {
    Idle(Client).(packets := [Numbering.Packet(x.endpoint, now, curTs)], issued := [x], handled := {0},
                  outbox := multiset{Parcel(KeyOf(x), datagram)})
  }

  lemma FirstIsRead(w: World, x: Issued, now: int, curTs: int)
    requires w.decode(Client, x.data) == Some(x.endpoint) && x.id == 1
    ensures var step := Read(Client, x.data, now, curTs);
      && Enabled(w, START, step)
      && Next(w, START, step)
         == START.(client := Idle(Client).(packets := [Numbering.Packet(x.endpoint, now, curTs)], issued := [x]))
  {
    hide Sealed, DataMessage, Accumulating, OrderOfFlushed, Dispatched;
  }

  lemma FirstIsSent(w: World, x: Issued, now: int, curTs: int, kind: u8, level: u8, rnd: Fields.Random)
    requires Sealed(w, DataMessage(w, x, kind, level), rnd, []).Some?
    ensures var datagram := Sealed(w, DataMessage(w, x, kind, level), rnd, []).value;
      var step := Transmit(Client, 0, kind, level, rnd);
      var read := START.(client := Idle(Client).(packets := [Numbering.Packet(x.endpoint, now, curTs)], issued := [x]));
      && Enabled(w, read, step)
      && Next(w, read, step) == START.(client := SentOne(x, now, curTs, datagram), fromClient := {datagram})
  {
    hide Sealed, DataMessage, Accumulating, OrderOfFlushed, Dispatched;
  }

  lemma GivingUpSends(w: World, x: Issued, now: int, curTs: int, kind: u8, level: u8, rnd: Fields.Random, rto: nat)
    requires w.decode(Client, x.data) == Some(x.endpoint) && x.id == 1
    requires Sealed(w, DataMessage(w, x, kind, level), rnd, []).Some?
    ensures var datagram := Sealed(w, DataMessage(w, x, kind, level), rnd, []).value;
      After(w, GivenUp(x, now, curTs, kind, level, rnd, rto, datagram)[..2])
      == START.(client := SentOne(x, now, curTs, datagram), fromClient := {datagram})
  {
    var datagram := Sealed(w, DataMessage(w, x, kind, level), rnd, []).value;
    var run := GivenUp(x, now, curTs, kind, level, rnd, rto, datagram);
    assert After(w, []) == START;
    FirstIsRead(w, x, now, curTs);
    FirstIsSent(w, x, now, curTs, kind, level, rnd);
    assert run[..1] == [] + [run[0]] && run[..2] == run[..1] + [run[1]];
    hide *;
    AfterMore(w, [], run[0]);
    AfterMore(w, run[..1], run[1]);
  }

  /** A packet just sent is stored, its datagram is lost, and its goroutine ends. */
  lemma StoredLostEnded(w: World, steps: seq<Step>, x: Issued, d: Direction, datagram: bytes, rto: nat)
    requires After(w, steps) == START.(client := d, fromClient := {datagram})
    requires d.from == Client && d.issued == [x] && d.handled == {0} && d.outbox == multiset{Parcel(KeyOf(x), datagram)}
    requires d.waiting == multiset{} && d.inFlight == map[] && d.received == [] && d.events == [] && x.id == 1
    ensures var store, lose := Store(Client, Parcel(KeyOf(x), datagram), rto), Lose(Client, datagram);
      var end := Finish(Client, Waiting(KeyOf(x), datagram, rto));
      HasGivenUp(After(w, ((steps + [store]) + [lose]) + [end]), x, datagram)
  {
    var store, lose := Store(Client, Parcel(KeyOf(x), datagram), rto), Lose(Client, datagram);
    var end := Finish(Client, Waiting(KeyOf(x), datagram, rto));
    hide After, Sealed, Accumulating, OrderOfFlushed, Dispatched, Reading, Transmitting;
    AfterMore(w, steps, store);
    AfterMore(w, steps + [store], lose);
    assert After(w, (steps + [store]) + [lose]) == START.(client := Storing(d, Parcel(KeyOf(x), datagram), rto));
    AfterMore(w, (steps + [store]) + [lose], end);
  }

  lemma FivePieces<T>(run: seq<T>)
    requires |run| == 5
    ensures run == ((run[..2] + [run[2]]) + [run[3]]) + [run[4]]
  {
  }

  lemma GivingUp(w: World, x: Issued, now: int, curTs: int, kind: u8, level: u8, rnd: Fields.Random, rto: nat)
    requires w.decode(Client, x.data) == Some(x.endpoint) && x.id == 1
    requires Sealed(w, DataMessage(w, x, kind, level), rnd, []).Some?
    ensures var datagram := Sealed(w, DataMessage(w, x, kind, level), rnd, []).value;
      HasGivenUp(After(w, GivenUp(x, now, curTs, kind, level, rnd, rto, datagram)), x, datagram)
  {
    var datagram := Sealed(w, DataMessage(w, x, kind, level), rnd, []).value;
    var run := GivenUp(x, now, curTs, kind, level, rnd, rto, datagram);
    GivingUpSends(w, x, now, curTs, kind, level, rnd, rto);
    FivePieces(run);
    assert run[2] == Store(Client, Parcel(KeyOf(x), datagram), rto) && run[3] == Lose(Client, datagram);
    assert run[4] == Finish(Client, Waiting(KeyOf(x), datagram, rto));
    assert SentOne(x, now, curTs, datagram).outbox == multiset{Parcel(KeyOf(x), datagram)};
    hide After, Sealed, DataMessage, HasGivenUp, GivenUp;
    StoredLostEnded(w, run[..2], x, SentOne(x, now, curTs, datagram), datagram, rto);
  }

  lemma GivenUpIsHopeless(w: World, s: State, x: Issued, datagram: bytes)
    requires HasGivenUp(s, x, datagram)
    ensures !Hopeful(w, s, Client, KeyOf(x))
  {
    hide Opened, Brings, Settles, Takeable;
  }

  /** An entry whose copies have all been lost when its goroutine ends stays in the table
      for good: no continuation takes it out unless more is read for its endpoint. */
  lemma GivenUpIsStuck(w: World, x: Issued, now: int, curTs: int, kind: u8, level: u8, rnd: Fields.Random, rto: nat, more: seq<Step>)
    requires Sensible(w) && w.decode(Client, x.data) == Some(x.endpoint) && x.id == 1
    requires Sealed(w, DataMessage(w, x, kind, level), rnd, []).Some? && NothingRead(w, more, Client, x.endpoint)
    ensures var run := GivenUp(x, now, curTs, kind, level, rnd, rto, Sealed(w, DataMessage(w, x, kind, level), rnd, []).value);
      KeyOf(x) in After(w, run + more).client.inFlight
  {
    var datagram := Sealed(w, DataMessage(w, x, kind, level), rnd, []).value;
    var run := GivenUp(x, now, curTs, kind, level, rnd, rto, datagram);
    GivingUp(w, x, now, curTs, kind, level, rnd, rto);
    hide Sealed, DataMessage, After, Sensible, Hopeful, GivenUp;
    GivenUpIsHopeless(w, After(w, run), x, datagram);
    HopelessStays(w, run, more, Client, KeyOf(x));
  }
}
