/**
 The set of acknowledged messages that fits one datagram, and the accumulator that
 batches acknowledgements into such sets.
 */
module Acknowledgements {
  import opened Bytes

  type AckData = map<u64, seq<u32>>

  const ENDPOINT_SIZE: nat := 9
  const MAX_IDS: nat := 255

  // ----- sizes

  /** `order` lists the keys of `data`, each once: one way a map can be iterated. */
  ghost predicate IsOrder(order: seq<u64>, data: AckData) {
    && (forall i, j :: 0 <= i < j < |order| ==> order[i] != order[j])
    && (forall e :: e in order <==> e in data)
  }

  function SizeAlong(data: AckData, order: seq<u64>): nat
    requires forall e :: e in order ==> e in data
  {
    if order == [] then 0 else ENDPOINT_SIZE + 4 * |data[order[0]]| + SizeAlong(data, order[1..])
  }

  /** `size` is the encoded size, whatever the order of encoding. */
  ghost predicate Sized(data: AckData, size: int) {
    forall order :: IsOrder(order, data) ==> SizeAlong(data, order) == size
  }

  lemma {:induction false} SizeConcat(data: AckData, a: seq<u64>, b: seq<u64>)
    requires forall e :: e in a + b ==> e in data
    ensures forall e :: e in a || e in b ==> e in data
    ensures SizeAlong(data, a + b) == SizeAlong(data, a) + SizeAlong(data, b)
  {
    forall e | e in a || e in b ensures e in a + b { }
    if a == [] {
      assert a + b == b;
    } else {
      assert (a + b)[1..] == a[1..] + b;
      SizeConcat(data, a[1..], b);
    }
  }

  lemma {:induction false} SizeElsewhere(data: AckData, e: u64, ids: seq<u32>, order: seq<u64>)
    requires forall f :: f in order ==> f in data && f != e
    ensures SizeAlong(data[e := ids], order) == SizeAlong(data, order)
  {
    if order != [] {
      forall f | f in order[1..] ensures f in order { }
      SizeElsewhere(data, e, ids, order[1..]);
    }
  }

  /** Listing `e` costs its entry on top of the entries of the others. */
  lemma SizeWith(data: AckData, e: u64, ids: seq<u32>, order: seq<u64>, k: nat)
    requires IsOrder(order, data[e := ids]) && k < |order| && order[k] == e
    ensures forall f :: f in order[..k] + order[k + 1..] ==> f in data && f != e
    ensures SizeAlong(data[e := ids], order) == SizeAlong(data, order[..k] + order[k + 1..]) + ENDPOINT_SIZE + 4 * |ids|
  {
    var a, b, more := order[..k], order[k + 1..], data[e := ids];
    assert order == a + ([e] + b);
    forall f | f in a + b ensures f in data && f != e { assert f in order; }
    SizeConcat(more, a, [e] + b);
    SizeConcat(more, [e], b);
    SizeElsewhere(data, e, ids, a + b);
    SizeConcat(more, a, b);
    assert SizeAlong(more, [e]) == ENDPOINT_SIZE + 4 * |ids| + SizeAlong(more, []) by { assert [e][1..] == []; }
  }

  lemma SizedAfterNewEndpoint(data: AckData, size: int, e: u64, id: u32)
    requires Sized(data, size) && e !in data
    ensures Sized(data[e := [id]], size + ENDPOINT_SIZE + 4)
  {
    var more := data[e := [id]];
    forall order | IsOrder(order, more) ensures SizeAlong(more, order) == size + ENDPOINT_SIZE + 4 {
      assert e in order;
      var k :| 0 <= k < |order| && order[k] == e;
      SizeWith(data, e, [id], order, k);
      RemovedIsOrder(data, e, [id], order, k);
    }
  }

  lemma RemovedIsOrder(data: AckData, e: u64, ids: seq<u32>, order: seq<u64>, k: nat)
    requires IsOrder(order, data[e := ids]) && k < |order| && order[k] == e && e !in data
    ensures IsOrder(order[..k] + order[k + 1..], data)
  {
    var rest := order[..k] + order[k + 1..];
    forall f ensures f in rest <==> f in data {
      if f in data {
        assert f in order;
        var i :| 0 <= i < |order| && order[i] == f;
        assert rest[if i < k then i else i - 1] == f;
      }
      if f in rest { assert f in order; }
    }
  }

  lemma SizedAfterOldEndpoint(data: AckData, size: int, e: u64, id: u32)
    requires Sized(data, size) && e in data
    ensures Sized(data[e := data[e] + [id]], size + 4)
  {
    var ids := data[e] + [id];
    var more := data[e := ids];
    forall order | IsOrder(order, more) ensures SizeAlong(more, order) == size + 4 {
      assert e in order;
      var k :| 0 <= k < |order| && order[k] == e;
      SizeWith(data, e, ids, order, k);
      assert data[e := data[e]] == data;
      assert IsOrder(order, data);
      SizeWith(data, e, data[e], order, k);
    }
  }

  // ----- the set, on values and as the object that is updated

  datatype AckSet = AckSet(data: AckData, size: int, maxSize: int)

  ghost predicate Fits(s: AckSet) {
    && Sized(s.data, s.size) && 0 <= s.size
    && (s.data != map[] ==> s.size <= s.maxSize)
    && (s.data == map[] <==> s.size == 0)
    && (forall e :: e in s.data ==> 1 <= |s.data[e]| <= MAX_IDS)
  }

  predicate HasRoom(s: AckSet, e: u64) {
    if e !in s.data then s.size + ENDPOINT_SIZE + 4 <= s.maxSize
    else s.size + 4 <= s.maxSize && |s.data[e]| + 1 <= MAX_IDS
  }

  function IdsIn(data: AckData, e: u64): seq<u32> {
    if e in data then data[e] else []
  }

  function Pushed(s: AckSet, e: u64, id: u32): AckSet {
    if !HasRoom(s, e) then s
    else AckSet(s.data[e := IdsIn(s.data, e) + [id]],
                s.size + 4 + (if e in s.data then 0 else ENDPOINT_SIZE), s.maxSize)
  }

  lemma PushKeepsFits(s: AckSet, e: u64, id: u32)
    requires Fits(s)
    ensures Fits(Pushed(s, e, id))
  {
    if HasRoom(s, e) {
      if e in s.data {
        SizedAfterOldEndpoint(s.data, s.size, e, id);
      } else {
        SizedAfterNewEndpoint(s.data, s.size, e, id);
        assert [] + [id] == [id];
      }
      assert e in Pushed(s, e, id).data;
    }
  }

  lemma HeadIsMember<T>(s: seq<T>)
    ensures s == [] || s[0] in s
  {
  }

  lemma EmptyFits(maxSize: int)
    ensures Fits(AckSet(map[], 0, maxSize))
  {
    forall order: seq<u64> | IsOrder(order, map[]) ensures SizeAlong(map[], order) == 0 {
      HeadIsMember(order);
    }
  }

  class MessageAcknowledgement {
    var data: AckData
    var maxSize: int
    var size: int

    constructor (maxSize: int)
      ensures Value() == AckSet(map[], 0, maxSize)
    {
      data, this.maxSize, size := map[], maxSize, 0;
    }

    function Value(): AckSet
      reads this
    {
      AckSet(data, size, maxSize)
    }

    method Push(endpoint: u64, messageID: u32) returns (added: bool)
      requires Fits(Value())
      modifies this
      ensures added == HasRoom(old(Value()), endpoint)
      ensures Value() == Pushed(old(Value()), endpoint, messageID) && Fits(Value())
    {
      PushKeepsFits(Value(), endpoint, messageID);
      hide Fits;
      var ids := [];
      if endpoint !in data {
        if size + ENDPOINT_SIZE + 4 > maxSize {
          return false;
        }
        size := size + ENDPOINT_SIZE;
      } else {
        ids := data[endpoint];
        if size + 4 > maxSize || |ids| + 1 > MAX_IDS {
          return false;
        }
      }
      ids := ids + [messageID];
      data := data[endpoint := ids];
      size := size + 4;
      return true;
    }

    method Reset()
      modifies this
      ensures Value() == AckSet(map[], 0, old(maxSize)) && Fits(Value())
    {
      data := map[];
      size := 0;
      EmptyFits(maxSize);
    }
  }

  // ----- batching

  /** What wakes the accumulator: a message to acknowledge, with the clock readings
      before and after it is stored and the waiting time allowed just then, or the
      expiry of the waiting time. */
  datatype Event = Acked(endpoint: u64, id: u32, firstNow: int, now: int, wait: int) | Expired

  datatype Batching = Batching(buffer: AckSet, firstAckTime: int, batches: seq<AckData>)

  function Start(maxSize: int): Batching {
    Batching(AckSet(map[], 0, maxSize), 0, [])
  }

  /** Hands the set over, unless it is empty, and starts a new one. */
  function Sent(b: Batching): Batching {
    Batching(AckSet(map[], 0, b.buffer.maxSize), 0, if b.buffer.size == 0 then b.batches else b.batches + [b.buffer.data])
  }

  function Handled(b: Batching, ev: Event): Batching {
    match ev
    case Expired => Sent(b)
    case Acked(e, id, firstNow, now, wait) =>
      var first := if b.firstAckTime == 0 then firstNow else b.firstAckTime;
      var added := HasRoom(b.buffer, e);
      var stored := b.(buffer := Pushed(b.buffer, e, id), firstAckTime := first);
      if added && now - first < wait then stored
      else
        var sent := Sent(stored);
        if added then sent else sent.(buffer := Pushed(sent.buffer, e, id))
  }

  function Batched(maxSize: int, events: seq<Event>): Batching {
    if events == [] then Start(maxSize) else Handled(Batched(maxSize, events[..|events| - 1]), events[|events| - 1])
  }

  lemma OneMoreEvent(maxSize: int, done: seq<Event>, ev: Event)
    ensures Batched(maxSize, done + [ev]) == Handled(Batched(maxSize, done), ev)
  {
    assert (done + [ev])[..|done|] == done;
  }

  /** The accumulator's loop: it handles what wakes it until it is cancelled; `batches`
      are the sets handed to the sender. */
  method Accumulate(maxSize: int, wakeUps: seq<Option<Event>>) returns (buffer: MessageAcknowledgement, batches: seq<AckData>)
    ensures buffer.Value() == Batched(maxSize, UpToNone(wakeUps)).buffer
    ensures batches == Batched(maxSize, UpToNone(wakeUps)).batches
  {
    var ackIDs := new MessageAcknowledgement(maxSize);
    var firstAckTime := 0;
    batches := [];
    EmptyFits(maxSize);
    ghost var done: seq<Event> := [];
    assert wakeUps[0..] == wakeUps;
    for i := 0 to |wakeUps|
      invariant fresh(ackIDs) && Fits(ackIDs.Value())
      invariant done + UpToNone(wakeUps[i..]) == UpToNone(wakeUps)
      invariant Batching(ackIDs.Value(), firstAckTime, batches) == Batched(maxSize, done)
    {
      if wakeUps[i].None? {
        assert done + [] == done;
        return ackIDs, batches;
      }
      TakeNext(done, wakeUps, i);
      OneMoreEvent(maxSize, done, wakeUps[i].value);
      hide Fits, Pushed, HasRoom, Batched, UpToNone;
      match wakeUps[i].value {
        case Acked(endpoint, id, firstNow, now, wait) =>
          if firstAckTime == 0 {
            firstAckTime := firstNow;
          }
          var added := ackIDs.Push(endpoint, id);
          if now - firstAckTime >= wait || !added {
            if ackIDs.size != 0 {
              batches := batches + [ackIDs.data];
            }
            ackIDs.Reset();
            firstAckTime := 0;
            if !added {
              var _ := ackIDs.Push(endpoint, id);
            }
          }
        case Expired =>
          if ackIDs.size != 0 {
            batches := batches + [ackIDs.data];
          }
          ackIDs.Reset();
          firstAckTime := 0;
      }
      done := done + [wakeUps[i].value];
    }
    assert done + [] == done;
    return ackIDs, batches;
  }

  // ----- nothing lost, nothing invented

  /** The IDs pushed for one endpoint, in order. */
  function IdsOf(events: seq<Event>, e: u64): seq<u32> {
    if events == [] then []
    else
      var last := events[|events| - 1];
      IdsOf(events[..|events| - 1], e) + (if last.Acked? && last.endpoint == e then [last.id] else [])
  }

  /** The IDs the batches carry for one endpoint, in order. */
  function IdsAcross(batches: seq<AckData>, e: u64): seq<u32> {
    if batches == [] then [] else IdsAcross(batches[..|batches| - 1], e) + IdsIn(batches[|batches| - 1], e)
  }

  ghost predicate AllFit(b: Batching) {
    && Fits(b.buffer)
    && forall i :: 0 <= i < |b.batches| ==> b.batches[i] != map[] && exists size :: Fits(AckSet(b.batches[i], size, b.buffer.maxSize))
  }

  /** Everything pushed for `e` so far: handed over, then buffered. */
  function Total(b: Batching, e: u64): seq<u32> {
    IdsAcross(b.batches, e) + IdsIn(b.buffer.data, e)
  }

  lemma SentKeepsTotal(b: Batching, e: u64)
    requires Fits(b.buffer)
    ensures Total(Sent(b), e) == Total(b, e)
  {
    if b.buffer.size != 0 {
      var more := b.batches + [b.buffer.data];
      assert more[..|more| - 1] == b.batches;
    }
  }

  lemma PushedAddsToTotal(b: Batching, endpoint: u64, id: u32, e: u64)
    requires HasRoom(b.buffer, endpoint)
    ensures Total(b.(buffer := Pushed(b.buffer, endpoint, id)), e) == Total(b, e) + (if e == endpoint then [id] else [])
  {
  }

  lemma HandledAddsToTotal(b: Batching, ev: Event, e: u64)
    requires Fits(b.buffer) && b.buffer.maxSize >= ENDPOINT_SIZE + 4
    ensures Total(Handled(b, ev), e) == Total(b, e) + (if ev.Acked? && ev.endpoint == e then [ev.id] else [])
  {
    if ev.Acked? {
      var stored := b.(buffer := Pushed(b.buffer, ev.endpoint, ev.id));
      PushKeepsFits(b.buffer, ev.endpoint, ev.id);
      SentKeepsTotal(stored, e);
      if HasRoom(b.buffer, ev.endpoint) {
        PushedAddsToTotal(b, ev.endpoint, ev.id, e);
      } else {
        PushedAddsToTotal(Sent(b), ev.endpoint, ev.id, e);
      }
    } else {
      SentKeepsTotal(b, e);
      assert Total(b, e) + [] == Total(b, e);
    }
  }

  lemma SentFits(b: Batching)
    requires AllFit(b)
    ensures AllFit(Sent(b)) && Sent(b).buffer.maxSize == b.buffer.maxSize
  {
    EmptyFits(b.buffer.maxSize);
    if b.buffer.size != 0 {
      assert Fits(AckSet(b.buffer.data, b.buffer.size, b.buffer.maxSize));
    }
  }

  /** Every batch is nonempty, within the size limit, and no list outgrows its
      one-byte counter. */
  lemma {:induction false} BatchesFit(maxSize: int, events: seq<Event>)
    ensures AllFit(Batched(maxSize, events)) && Batched(maxSize, events).buffer.maxSize == maxSize
  {
    if events == [] {
      EmptyFits(maxSize);
    } else {
      var b, ev := Batched(maxSize, events[..|events| - 1]), events[|events| - 1];
      BatchesFit(maxSize, events[..|events| - 1]);
      if ev.Acked? {
        var stored := b.(buffer := Pushed(b.buffer, ev.endpoint, ev.id));
        PushKeepsFits(b.buffer, ev.endpoint, ev.id);
        SentFits(stored);
        PushKeepsFits(Sent(stored).buffer, ev.endpoint, ev.id);
      } else {
        SentFits(b);
      }
    }
  }

  /** A limit of 13 bytes, one endpoint with one ID, is enough to lose nothing: handed
      over and buffered together are what was pushed, per endpoint and in order. */
  lemma {:induction false} BatchingConserves(maxSize: int, events: seq<Event>, e: u64)
    requires maxSize >= ENDPOINT_SIZE + 4
    ensures Total(Batched(maxSize, events), e) == IdsOf(events, e)
  {
    if events != [] {
      var before, ev := events[..|events| - 1], events[|events| - 1];
      BatchesFit(maxSize, before);
      BatchingConserves(maxSize, before, e);
      HandledAddsToTotal(Batched(maxSize, before), ev, e);
    }
  }

  /** An acknowledgement that found room, `wait` after the oldest one buffered or later. */
  predicate Late(b: Batching, ev: Event) {
    ev.Acked? && HasRoom(b.buffer, ev.endpoint) && ev.now - (if b.firstAckTime == 0 then ev.firstNow else b.firstAckTime) >= ev.wait
  }

  /** Nothing lingers: when the waiting time expires, or an acknowledgement comes late,
      everything pushed so far has been handed over. */
  lemma WaitingTimeHandsOver(maxSize: int, events: seq<Event>, ev: Event, e: u64)
    requires maxSize >= ENDPOINT_SIZE + 4
    requires ev.Expired? || Late(Batched(maxSize, events), ev)
    ensures IdsAcross(Batched(maxSize, events + [ev]).batches, e) == IdsOf(events + [ev], e)
  {
    var all := events + [ev];
    assert all[..|all| - 1] == events;
    BatchingConserves(maxSize, all, e);
    var b := Batched(maxSize, all);
    assert IdsIn(b.buffer.data, e) == [];
    hide Batched;
    assert Total(b, e) == IdsAcross(b.batches, e);
  }

  /** Below that limit nothing is ever stored: every acknowledgement is lost. */
  lemma {:induction false} TooSmallLosesAll(maxSize: int, events: seq<Event>)
    requires maxSize < ENDPOINT_SIZE + 4
    ensures Batched(maxSize, events).buffer == AckSet(map[], 0, maxSize) && Batched(maxSize, events).batches == []
  {
    if events != [] { TooSmallLosesAll(maxSize, events[..|events| - 1]); }
  }

  /** Acknowledgements survive batching exactly when the limit holds one of them. */
  lemma BatchingConservesIff(maxSize: int, events: seq<Event>, e: u64)
    requires IdsOf(events, e) != []
    ensures Total(Batched(maxSize, events), e) == IdsOf(events, e) <==> maxSize >= ENDPOINT_SIZE + 4
  {
    if maxSize >= ENDPOINT_SIZE + 4 {
      BatchingConserves(maxSize, events, e);
    } else {
      TooSmallLosesAll(maxSize, events);
    }
  }

  // ----- when a set is handed over, said of the events alone

  /** What the acknowledgements among the events take up in a datagram. */
  function Weight(events: seq<Event>): nat {
    if events == [] then 0
    else
      var front, last := events[..|events| - 1], events[|events| - 1];
      Weight(front) + if last.Expired? then 0 else if IdsOf(front, last.endpoint) == [] then 13 else 4
  }

  /** One more acknowledgement of the endpoint fits with those among the events: in
      bytes, and in the one-byte counter of its list. */
  predicate RoomWith(maxSize: int, events: seq<Event>, e: u64) {
    && Weight(events) + (if IdsOf(events, e) == [] then 13 else 4) <= maxSize
    && |IdsOf(events, e)| < 255
  }

  /** The first clock reading taken for the events from the `s`-th to before the `i`-th;
      a reading of 0 counts as none. */
  function FirstReading(events: seq<Event>, s: nat, i: nat): int
    requires s <= i <= |events|
    decreases i - s
  {
    if s == i then 0
    else if events[s].Acked? && events[s].firstNow != 0 then events[s].firstNow
    else FirstReading(events, s + 1, i)
  }

  /** The latest hand-over before the `i`-th event was at the event before this one. */
  ghost function SinceHandOver(maxSize: int, events: seq<Event>, i: nat): (s: nat)
    requires i <= |events|
    ensures s <= i
    decreases i, 0
  {
    if i == 0 then 0
    else if HandsOver(maxSize, events, i - 1) then i
    else SinceHandOver(maxSize, events, i - 1)
  }

  /** The acknowledgements held before the `i`-th event are those from this event on: the
      one for which there was no room is kept when the others are handed over. */
  ghost function HeldFrom(maxSize: int, events: seq<Event>, i: nat): (h: nat)
    requires i <= |events|
    ensures h <= i
    decreases i, 1
  {
    var s := SinceHandOver(maxSize, events, i);
    if s > 0 && events[s - 1].Acked? && !RoomWith(maxSize, events[HeldFrom(maxSize, events, s - 1)..s - 1], events[s - 1].endpoint)
    then s - 1 else s
  }

  /** At the `i`-th event a set is handed over: the waiting time expires with something
      held, there is no room, or the waiting time has passed since the first reading
      after the latest hand-over. */
  ghost predicate HandsOver(maxSize: int, events: seq<Event>, i: nat)
    requires i < |events|
    decreases i, 2
  {
    var held := events[HeldFrom(maxSize, events, i)..i];
    match events[i]
    case Expired => Weight(held) > 0
    case Acked(e, _, _, now, wait) =>
      !RoomWith(maxSize, held, e) || now - FirstReading(events, SinceHandOver(maxSize, events, i), i + 1) >= wait
  }

  /** The accumulator holds these events' acknowledgements, and no others. */
  ghost predicate Holds(s: AckSet, held: seq<Event>) {
    && s.size == Weight(held)
    && forall e :: IdsIn(s.data, e) == IdsOf(held, e) && (e in s.data <==> IdsOf(held, e) != [])
  }

  lemma OneMoreHeld(s: AckSet, held: seq<Event>, ev: Event)
    requires Holds(s, held) && ev.Acked? && s.maxSize >= 13
    ensures HasRoom(s, ev.endpoint) <==> RoomWith(s.maxSize, held, ev.endpoint)
    ensures HasRoom(s, ev.endpoint) ==> Holds(Pushed(s, ev.endpoint, ev.id), held + [ev])
  {
    var more := held + [ev];
    assert more[..|more| - 1] == held;
    assert forall e :: IdsOf(more, e) == IdsOf(held, e) + (if ev.endpoint == e then [ev.id] else []);
    assert ev.endpoint in s.data <==> IdsOf(held, ev.endpoint) != [];
  }

  lemma {:induction false} FirstReadingMore(events: seq<Event>, s: nat, i: nat)
    requires s <= i < |events|
    ensures var first := FirstReading(events, s, i);
      FirstReading(events, s, i + 1) == if first == 0 && events[i].Acked? then events[i].firstNow else first
    decreases i - s
  {
    if s < i { FirstReadingMore(events, s + 1, i); }
  }

  /** What the accumulator has after the first `i` events. */
  ghost predicate Stands(maxSize: int, events: seq<Event>, i: nat, b: Batching)
    requires i <= |events|
  {
    && Fits(b.buffer) && b.buffer.maxSize == maxSize
    && Holds(b.buffer, events[HeldFrom(maxSize, events, i)..i])
    && b.firstAckTime == FirstReading(events, SinceHandOver(maxSize, events, i), i)
    && (b.buffer.size == 0 ==> b.firstAckTime == 0)
  }

  /** Up to which event the set handed over at the `i`-th reaches: that one is in it if it
      is an acknowledgement that found room. */
  ghost function HandedUpTo(maxSize: int, events: seq<Event>, i: nat): nat
    requires i < |events|
  {
    if events[i].Acked? && RoomWith(maxSize, events[HeldFrom(maxSize, events, i)..i], events[i].endpoint) then i + 1 else i
  }

  /** The set handed over has these acknowledgements, endpoint by endpoint in order. */
  ghost predicate Carries(batch: AckData, events: seq<Event>) {
    forall e :: IdsIn(batch, e) == IdsOf(events, e)
  }

  lemma HeldNext(maxSize: int, events: seq<Event>, i: nat)
    requires i < |events|
    ensures !HandsOver(maxSize, events, i) ==>
      && SinceHandOver(maxSize, events, i + 1) == SinceHandOver(maxSize, events, i)
      && HeldFrom(maxSize, events, i + 1) == HeldFrom(maxSize, events, i)
    ensures HandsOver(maxSize, events, i) ==>
      && SinceHandOver(maxSize, events, i + 1) == i + 1
      && HeldFrom(maxSize, events, i + 1)
         == if events[i].Acked? && !RoomWith(maxSize, events[HeldFrom(maxSize, events, i)..i], events[i].endpoint) then i else i + 1
  {
  }

  lemma Slices(events: seq<Event>, h: nat, i: nat)
    requires h <= i < |events|
    ensures events[h..i + 1] == events[h..i] + [events[i]]
    ensures events[i + 1..i + 1] == [] && events[i..i + 1] == [] + [events[i]]
  {
  }

  lemma NothingHeld(maxSize: int)
    ensures Holds(AckSet(map[], 0, maxSize), [])
  {
  }

  lemma ExpiredStands(maxSize: int, events: seq<Event>, i: nat, b: Batching)
    requires i < |events| && Stands(maxSize, events, i, b) && events[i].Expired?
    ensures Stands(maxSize, events, i + 1, Handled(b, events[i]))
  {
    var h := HeldFrom(maxSize, events, i);
    EmptyFits(maxSize);
    HeldNext(maxSize, events, i);
    FirstReadingMore(events, SinceHandOver(maxSize, events, i), i);
    Slices(events, h, i);
    OneMoreExpired(events[h..i], events[i]);
    NothingHeld(maxSize);
    hide HeldFrom, SinceHandOver, FirstReading, Fits, Holds, Weight, IdsOf;
    if HandsOver(maxSize, events, i) { NoReading(events, i + 1); }
  }

  lemma OneMoreExpired(held: seq<Event>, ev: Event)
    requires ev.Expired?
    ensures Weight(held + [ev]) == Weight(held)
    ensures forall s :: Holds(s, held) ==> Holds(s, held + [ev])
  {
    assert (held + [ev])[..|held|] == held;
  }

  lemma NoReading(events: seq<Event>, i: nat)
    requires i <= |events|
    ensures FirstReading(events, i, i) == 0
  {
  }

  lemma AckedStands(maxSize: int, events: seq<Event>, i: nat, b: Batching)
    requires i < |events| && Stands(maxSize, events, i, b) && events[i].Acked? && maxSize >= 13
    ensures Stands(maxSize, events, i + 1, Handled(b, events[i]))
  {
    var h, ev := HeldFrom(maxSize, events, i), events[i];
    var held := events[h..i];
    Slices(events, h, i);
    EmptyFits(maxSize);
    HeldNext(maxSize, events, i);
    FirstReadingMore(events, SinceHandOver(maxSize, events, i), i);
    OneMoreHeld(b.buffer, held, ev);
    OneMoreHeld(AckSet(map[], 0, maxSize), [], ev);
    PushKeepsFits(b.buffer, ev.endpoint, ev.id);
    PushKeepsFits(AckSet(map[], 0, maxSize), ev.endpoint, ev.id);
    NoReading(events, i + 1);
    NothingHeld(maxSize);
    hide HeldFrom, SinceHandOver, FirstReading, Fits, RoomWith, Weight, IdsOf;
  }

  lemma StandsAtFirst(maxSize: int, events: seq<Event>)
    ensures Stands(maxSize, events, 0, Batched(maxSize, events[..0]))
  {
    EmptyFits(maxSize);
    assert events[..0] == [] && events[0..0] == [];
  }

  lemma BatchedNext(maxSize: int, events: seq<Event>, i: nat)
    requires i < |events|
    ensures Batched(maxSize, events[..i + 1]) == Handled(Batched(maxSize, events[..i]), events[i])
  {
    OneMoreEvent(maxSize, events[..i], events[i]);
    hide *;
    assert events[..i + 1] == events[..i] + [events[i]];
  }

  lemma StillStands(maxSize: int, events: seq<Event>, i: nat)
    requires i < |events| && maxSize >= 13 && Stands(maxSize, events, i, Batched(maxSize, events[..i]))
    ensures Stands(maxSize, events, i + 1, Batched(maxSize, events[..i + 1]))
  {
    hide *;
    BatchedNext(maxSize, events, i);
    if events[i].Expired? {
      ExpiredStands(maxSize, events, i, Batched(maxSize, events[..i]));
    } else {
      AckedStands(maxSize, events, i, Batched(maxSize, events[..i]));
    }
  }

  lemma {:induction false} BatchedStands(maxSize: int, events: seq<Event>, i: nat)
    requires i <= |events| && maxSize >= 13
    ensures Stands(maxSize, events, i, Batched(maxSize, events[..i]))
  {
    if i == 0 {
      StandsAtFirst(maxSize, events);
    } else {
      hide *;
      BatchedStands(maxSize, events, i - 1);
      StillStands(maxSize, events, i - 1);
    }
  }

  /** What handling the `i`-th event adds to the batches. */
  ghost predicate HandsOverRightly(maxSize: int, events: seq<Event>, i: nat, before: seq<AckData>, after: seq<AckData>)
    requires i < |events|
  {
    if HandsOver(maxSize, events, i) then
      && |after| == |before| + 1 && after[..|before|] == before
      && Carries(after[|before|], events[HeldFrom(maxSize, events, i)..HandedUpTo(maxSize, events, i)])
    else after == before
  }

  lemma ExpiredHandsOver(maxSize: int, events: seq<Event>, i: nat, b: Batching)
    requires i < |events| && Stands(maxSize, events, i, b) && events[i].Expired?
    ensures HandsOverRightly(maxSize, events, i, b.batches, Handled(b, events[i]).batches)
  {
    hide HeldFrom, SinceHandOver, FirstReading, RoomWith, Weight, IdsOf, Fits;
  }

  lemma AckedHandsOver(maxSize: int, events: seq<Event>, i: nat, b: Batching)
    requires i < |events| && Stands(maxSize, events, i, b) && events[i].Acked? && maxSize >= 13
    ensures HandsOverRightly(maxSize, events, i, b.batches, Handled(b, events[i]).batches)
  {
    var h, ev := HeldFrom(maxSize, events, i), events[i];
    var held := events[h..i];
    Slices(events, h, i);
    FirstReadingMore(events, SinceHandOver(maxSize, events, i), i);
    OneMoreHeld(b.buffer, held, ev);
    PushKeepsFits(b.buffer, ev.endpoint, ev.id);
    assert b.buffer.size == 0 ==> HasRoom(b.buffer, ev.endpoint);
    hide HeldFrom, SinceHandOver, FirstReading, RoomWith, Weight, IdsOf, Fits, HasRoom;
  }

  /** A set is handed over exactly at the events at which the bytes, the IDs and the clock
      readings among the events say so, and it is the acknowledgements held until then;
      at no other event anything is. */
  lemma HandsOverExactly(maxSize: int, events: seq<Event>, i: nat)
    requires i < |events| && maxSize >= 13
    ensures var before, after := Batched(maxSize, events[..i]).batches, Batched(maxSize, events[..i + 1]).batches;
      if HandsOver(maxSize, events, i) then
        && |after| == |before| + 1 && after[..|before|] == before
        && Carries(after[|before|], events[HeldFrom(maxSize, events, i)..HandedUpTo(maxSize, events, i)])
      else after == before
  {
    var b := Batched(maxSize, events[..i]);
    hide HeldFrom, HandsOver, HandedUpTo, Stands, Handled, Carries, Batched, Weight, IdsOf, FirstReading, SinceHandOver;
    BatchedStands(maxSize, events, i);
    BatchedNext(maxSize, events, i);
    if events[i].Expired? { ExpiredHandsOver(maxSize, events, i, b); } else { AckedHandsOver(maxSize, events, i, b); }
  }
}
