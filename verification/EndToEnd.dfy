/**
 What the two peers guarantee together, over every run: no acknowledgement is false,
 and what comes out of the merger is what the other peer's interface read.
 */
module EndToEnd {
  import opened Bytes
  import opened Retransmission
  import opened Protocol
  import opened ProtocolRuns
  import Backlog
  import Delivery
  import Numbering
  import Reorder
  import Streams

  // ----- no false acknowledgement

  /** The key of a reset message, number 0 of endpoint 0, is that of no packet as long as
      endpoint 0 has read fewer packets than there are numbers. */
  ghost predicate BlankIsFree(d: Direction) {
    Numbering.Count(d.packets, BLANK_KEY.endpoint) < MAX_U32
  }

  lemma CountGrows(packets: seq<Numbering.Packet>, endpoint: u64)
    requires packets != []
    ensures Numbering.Count(packets[..|packets| - 1], endpoint) <= Numbering.Count(packets, endpoint)
  {
  }

  /** Evictions included, no packet of the endpoint gets number 0 before that. */
  lemma {:induction false} NumberZeroIsNotIssued(w: World, packets: seq<Numbering.Packet>, issued: seq<Issued>, endpoint: u64)
    requires Numbered(w, packets, issued) && Numbering.Count(packets, endpoint) < MAX_U32
    ensures !KeyIssued(issued, Key(endpoint, 0))
  {
    if packets != [] {
      var before, front, x := packets[..|packets| - 1], issued[..|issued| - 1], issued[|issued| - 1];
      CountGrows(packets, endpoint);
      NumberZeroIsNotIssued(w, before, front, endpoint);
      Numbering.NumberIsBounded(w.endpointTTL, before, endpoint);
      assert issued == front + [x];
      hide Numbering.NextID, Numbering.After, Numbering.Count;
    }
  }

  lemma BlankIsNotStored(w: World, d: Direction)
    requires DirectionInv(w, d) && BlankIsFree(d)
    ensures BLANK_KEY !in d.stored && BLANK_KEY !in d.inFlight
  {
    NumberZeroIsNotIssued(w, d.packets, d.issued, BLANK_KEY.endpoint);
  }

  /** An entry leaves the table, in whatever run, only if the other side has received
      the packet under that number, with the contents that were read. The key that every
      ending goroutine deletes is no exception until endpoint 0 has used all numbers. */
  lemma NoFalseAcknowledgement(w: World, steps: seq<Step>, side: Side, key: Key)
    requires Sensible(w)
    requires var d := From(After(w, steps), side);
      key in d.stored && key !in d.inFlight && (key == BLANK_KEY ==> BlankIsFree(d))
    ensures var d := From(After(w, steps), side);
      exists m :: m in d.received && m.endpoint == key.endpoint && m.id == key.id && Genuine(d.issued, m.endpoint, m.id, m.payload)
  {
    DirectionAlways(w, steps, side);
    var d := From(After(w, steps), side);
    if key == BLANK_KEY { BlankIsNotStored(w, d); }
    hide After, BlankIsFree, Numbered;
    assert WasReceived(d, key);
    var m :| m in d.received && m.endpoint == key.endpoint && m.id == key.id;
    assert Genuine(d.issued, m.endpoint, m.id, m.payload);
  }

  /** The entry that one step removes is one whose packet had already been received. */
  lemma RemovalIsEarned(w: World, steps: seq<Step>, step: Step, side: Side, key: Key)
    requires Sensible(w) && Enabled(w, After(w, steps), step)
    requires key in From(After(w, steps), side).inFlight && key !in From(Next(w, After(w, steps), step), side).inFlight
    requires key == BLANK_KEY ==> BlankIsFree(From(After(w, steps), side))
    ensures WasReceived(From(After(w, steps), side), key)
    ensures step.Arrive? && step.side == Other(side)
  {
    var s := After(w, steps);
    DirectionAlways(w, steps, side);
    if key == BLANK_KEY {
      BlankIsNotStored(w, From(s, side));
    } else {
      AlwaysInv(w, steps);
      OnlyArrivalsRemove(w, s, step, side, key);
      hide After, Inv, Sensible;
      ArrivalIsEarned(w, s, step, side, key);
    }
  }

  lemma ArrivalIsEarned(w: World, s: State, step: Step, side: Side, key: Key)
    requires Inv(w, s) && InStep(From(s, side)) && Enabled(w, s, step) && step.Arrive? && step.side == Other(side)
    requires key in From(s, side).inFlight && key !in From(Next(w, s, step), side).inFlight
    ensures WasReceived(From(s, side), key)
  {
    hide Opened, Batches, Inv, InStep, Next, WasReceived, OrderOfFlushed;
    assert step.datagram in Wire(s, step.side);
    hide Enabled, From, Wire;
    ArrivingIsMeaningful(w, s, step.side, step.datagram);
    ArrivingSettles(w, s, step, side, key);
    BatchIsEarned(w, From(s, side), Opened(w, step.datagram).value.payload.acks, key);
  }

  // ----- end-to-end order

  /** The packets of one endpoint, in the order they were read. */
  function PacketsOf(issued: seq<Issued>, endpoint: u64): seq<bytes> {
    if issued == [] then []
    else
      var x := issued[|issued| - 1];
      PacketsOf(issued[..|issued| - 1], endpoint) + (if x.endpoint == endpoint then [x.data] else [])
  }

  function Payloads(sent: seq<Reorder.Message>): seq<bytes> {
    seq(|sent|, i requires 0 <= i < |sent| => sent[i].payload)
  }

  /** What the merger has handed to the interface for one endpoint. */
  ghost function DeliveredTo(w: World, d: Direction, endpoint: u64): seq<bytes> {
    Payloads(Streams.OnlySent(Streams.StreamRun(w.merger, d.merged).sent, endpoint))
  }

  /** Neither the sender's numbering nor the receiver's merger has given up on the endpoint. */
  ghost predicate Undisturbed(w: World, d: Direction, endpoint: u64) {
    && Numbering.NeverEvicted(w.endpointTTL, d.packets, endpoint)
    && |PacketsOf(d.issued, endpoint)| < MAX_U32
    && Delivery.NeverFlushes(Reorder.BySession, w.merger, Streams.Only(d.merged, endpoint))
  }

  lemma {:induction false} CountIsPackets(w: World, packets: seq<Numbering.Packet>, issued: seq<Issued>, endpoint: u64)
    requires Numbered(w, packets, issued)
    ensures Numbering.Count(packets, endpoint) == |PacketsOf(issued, endpoint)|
  {
    if packets != [] { CountIsPackets(w, packets[..|packets| - 1], issued[..|issued| - 1], endpoint); }
  }

  ghost predicate Carries(issued: seq<Issued>, endpoint: u64, n: int, data: bytes) {
    exists x :: x in issued && x.endpoint == endpoint && x.id == n && x.data == data
  }

  /** The `n`-th packet of the endpoint carries number `n`, and no other number occurs. */
  ghost predicate CountedOff(issued: seq<Issued>, endpoint: u64) {
    var sent := PacketsOf(issued, endpoint);
    && (forall x :: x in issued && x.endpoint == endpoint ==> 1 <= x.id <= |sent| && sent[x.id - 1] == x.data)
    && (forall i :: 0 <= i < |sent| ==> Carries(issued, endpoint, i + 1, sent[i]))
  }

  lemma {:induction false} AlwaysCountedOff(w: World, packets: seq<Numbering.Packet>, issued: seq<Issued>, endpoint: u64)
    requires Numbered(w, packets, issued)
    requires Numbering.NeverEvicted(w.endpointTTL, packets, endpoint)
    requires |PacketsOf(issued, endpoint)| < MAX_U32
    ensures CountedOff(issued, endpoint)
  {
    if packets != [] {
      var before, front := packets[..|packets| - 1], issued[..|issued| - 1];
      var x := issued[|issued| - 1];
      assert issued == front + [x];
      AlwaysCountedOff(w, before, front, endpoint);
      if x.endpoint == endpoint {
        CountIsPackets(w, before, front, endpoint);
        Numbering.NumberIsCount(w.endpointTTL, before, endpoint);
        hide Numbered, Numbering.NeverEvicted, Numbering.NextID, Numbering.After;
        OneMore(front, x, endpoint);
      } else {
        OneOther(front, x, endpoint);
      }
    }
  }

  lemma OneMore(front: seq<Issued>, x: Issued, endpoint: u64)
    requires CountedOff(front, endpoint) && x.endpoint == endpoint && x.id == |PacketsOf(front, endpoint)| + 1
    ensures CountedOff(front + [x], endpoint)
  {
    var issued := front + [x];
    assert issued[..|issued| - 1] == front;
    var was, sent := PacketsOf(front, endpoint), PacketsOf(issued, endpoint);
    assert sent == was + [x.data];
    hide PacketsOf;
    forall i | 0 <= i < |sent| ensures Carries(issued, endpoint, i + 1, sent[i]) {
      if i < |was| {
        assert Carries(front, endpoint, i + 1, was[i]);
      } else {
        assert x in issued;
      }
    }
  }

  lemma OneOther(front: seq<Issued>, x: Issued, endpoint: u64)
    requires CountedOff(front, endpoint) && x.endpoint != endpoint
    ensures CountedOff(front + [x], endpoint)
  {
    var issued := front + [x];
    assert issued[..|issued| - 1] == front;
    var sent := PacketsOf(front, endpoint);
    assert PacketsOf(issued, endpoint) == sent + [];
    hide PacketsOf;
    forall i | 0 <= i < |sent| ensures Carries(issued, endpoint, i + 1, sent[i]) {
      assert Carries(front, endpoint, i + 1, sent[i]);
    }
  }

  /** The merger's arrivals of the endpoint are packets of the endpoint, under their numbers. */
  ghost predicate Faithful(arrivals: seq<Reorder.Arrival>, packets: seq<bytes>) {
    forall a :: a in arrivals ==> 1 <= a.msg.id <= |packets| && packets[a.msg.id - 1] == a.msg.payload
  }

  lemma MergedIsReceived(d: Direction)
    requires InStep(d)
    ensures forall a :: a in d.merged ==> a.msg in d.received
  {
  }

  lemma ArrivalsAreFaithful(w: World, d: Direction, endpoint: u64)
    requires DirectionInv(w, d) && CountedOff(d.issued, endpoint)
    ensures Faithful(Streams.Only(d.merged, endpoint), PacketsOf(d.issued, endpoint))
  {
    Streams.OnlyIsSubset(d.merged, endpoint);
    MergedIsReceived(d);
    hide Streams.Only, Numbered, Kept, Keyed, InStep;
    forall a | a in Streams.Only(d.merged, endpoint)
      ensures 1 <= a.msg.id <= |PacketsOf(d.issued, endpoint)| && PacketsOf(d.issued, endpoint)[a.msg.id - 1] == a.msg.payload
    {
      assert a.msg in d.received;
      assert Issued(a.msg.endpoint, a.msg.id, a.msg.payload) in d.issued;
    }
  }

  /** Exact delivery of faithful arrivals is delivery of a prefix of the packets. */
  lemma ExactIsPrefix(arrivals: seq<Reorder.Arrival>, r: Reorder.Outcome, packets: seq<bytes>)
    requires Delivery.Exact(1, arrivals, r) && Faithful(arrivals, packets)
    ensures Payloads(r.sent) <= packets
  {
    forall i | 0 <= i < |r.sent| ensures i < |packets| && packets[i] == r.sent[i].payload {
      Delivery.FirstArrived(arrivals, r.sent[i].id);
    }
    if r.sent != [] { Delivery.FirstArrived(arrivals, r.sent[|r.sent| - 1].id); }
  }

  lemma DeliveryIsExact(w: World, d: Direction, endpoint: u64)
    requires Undisturbed(w, d, endpoint)
    requires Faithful(Streams.Only(d.merged, endpoint), PacketsOf(d.issued, endpoint))
    ensures var mine := Streams.Only(d.merged, endpoint);
      var r := Reorder.Run(Reorder.BySession, w.merger, mine);
      Delivery.Exact(1, mine, r) && DeliveredTo(w, d, endpoint) == Payloads(r.sent)
  {
    var mine := Streams.Only(d.merged, endpoint);
    Streams.EndpointsDoNotInterfere(w.merger, d.merged, endpoint);
    Delivery.SessionDeliveryIsExact(w.merger, mine);
  }

  /** End-to-end order: whatever the network loses, duplicates and reorders, what has
      been delivered for an endpoint is a prefix of the packets read for it, as long
      as its counter was not evicted and its waiting list not flushed. */
  lemma DeliveredIsPrefix(w: World, steps: seq<Step>, side: Side, endpoint: u64)
    requires Sensible(w) && Undisturbed(w, From(After(w, steps), side), endpoint)
    ensures var d := From(After(w, steps), side);
      DeliveredTo(w, d, endpoint) <= PacketsOf(d.issued, endpoint)
  {
    var d := From(After(w, steps), side);
    AlwaysInv(w, steps);
    assert DirectionInv(w, d) by { assert SideInv(w, After(w, steps), side); }
    hide After, Inv;
    var mine := Streams.Only(d.merged, endpoint);
    AlwaysCountedOff(w, d.packets, d.issued, endpoint);
    ArrivalsAreFaithful(w, d, endpoint);
    DeliveryIsExact(w, d, endpoint);
    ExactIsPrefix(mine, Reorder.Run(Reorder.BySession, w.merger, mine), PacketsOf(d.issued, endpoint));
  }

  lemma FaithfulIsBelowMax(arrivals: seq<Reorder.Arrival>, packets: seq<bytes>)
    requires Faithful(arrivals, packets) && |packets| < MAX_U32
    ensures Delivery.BelowMax(arrivals)
  {
  }

  /** Being undisturbed is a matter of what was read, what arrived, and when: the stream
      gave nothing up exactly when every gap in the endpoint's numbers fitted. */
  lemma UndisturbedIff(w: World, steps: seq<Step>, side: Side, endpoint: u64)
    requires Sensible(w)
    ensures var d := From(After(w, steps), side);
      Undisturbed(w, d, endpoint)
      <==> (Numbering.NeverEvicted(w.endpointTTL, d.packets, endpoint) && |PacketsOf(d.issued, endpoint)| < MAX_U32
            && Backlog.GapsFit(Reorder.BySession, w.merger, Streams.Only(d.merged, endpoint)))
  {
    var d := From(After(w, steps), side);
    DirectionAlways(w, steps, side);
    hide After, Sensible;
    if Numbering.NeverEvicted(w.endpointTTL, d.packets, endpoint) && |PacketsOf(d.issued, endpoint)| < MAX_U32 {
      AlwaysCountedOff(w, d.packets, d.issued, endpoint);
      ArrivalsAreFaithful(w, d, endpoint);
      FaithfulIsBelowMax(Streams.Only(d.merged, endpoint), PacketsOf(d.issued, endpoint));
      Backlog.NeverFlushesIff(Reorder.BySession, w.merger, Streams.Only(d.merged, endpoint));
    }
  }

  // ----- everything acknowledged means everything delivered

  /** Every packet of the endpoint was stored for retransmission and has left the table,
      and the merger has taken what was received from its channel. */
  ghost predicate Finished(d: Direction, endpoint: u64) {
    && (forall x :: x in d.issued && x.endpoint == endpoint ==> Key(endpoint, x.id) in d.stored && Key(endpoint, x.id) !in d.inFlight)
    && (forall m :: m in d.received && m.endpoint == endpoint ==> Delivery.Arrived(d.merged, m))
  }

  lemma FinishedIsReceived(w: World, d: Direction, endpoint: u64, n: u32)
    requires DirectionInv(w, d) && CountedOff(d.issued, endpoint) && Finished(d, endpoint)
    requires 1 <= n <= |PacketsOf(d.issued, endpoint)|
    ensures n in Delivery.Received(Streams.Only(d.merged, endpoint))
  {
    assert Carries(d.issued, endpoint, (n - 1) + 1, PacketsOf(d.issued, endpoint)[n - 1]);
    assert WasReceived(d, Key(endpoint, n));
    var m :| m in d.received && m.endpoint == endpoint && m.id == n;
    Streams.OnlyIsSubset(d.merged, endpoint);
    var a :| a in d.merged && a.msg == m;
    assert a in Streams.Only(d.merged, endpoint);
  }

  lemma AllDelivered(w: World, d: Direction, endpoint: u64)
    requires DirectionInv(w, d) && CountedOff(d.issued, endpoint) && Finished(d, endpoint) && Undisturbed(w, d, endpoint)
    requires Faithful(Streams.Only(d.merged, endpoint), PacketsOf(d.issued, endpoint))
    requires DeliveredTo(w, d, endpoint) <= PacketsOf(d.issued, endpoint)
    ensures DeliveredTo(w, d, endpoint) == PacketsOf(d.issued, endpoint)
  {
    DeliveryIsExact(w, d, endpoint);
    var mine := Streams.Only(d.merged, endpoint);
    var last := Reorder.Run(Reorder.BySession, w.merger, mine).list.lastID;
    hide DirectionInv, CountedOff, Finished, Undisturbed, Faithful, DeliveredTo, Reorder.Run, Streams.Only;
    if |DeliveredTo(w, d, endpoint)| < |PacketsOf(d.issued, endpoint)| {
      FinishedIsReceived(w, d, endpoint, last + 1);
      assert false;
    }
  }

  /** Once every packet of an endpoint is acknowledged, the merger has delivered exactly
      those packets, in order. */
  lemma AcknowledgedIsDelivered(w: World, steps: seq<Step>, side: Side, endpoint: u64)
    requires Sensible(w) && Undisturbed(w, From(After(w, steps), side), endpoint)
    requires Finished(From(After(w, steps), side), endpoint)
    ensures var d := From(After(w, steps), side);
      DeliveredTo(w, d, endpoint) == PacketsOf(d.issued, endpoint)
  {
    var d := From(After(w, steps), side);
    assert Numbering.NeverEvicted(w.endpointTTL, d.packets, endpoint) && |PacketsOf(d.issued, endpoint)| < MAX_U32;
    DirectionAlways(w, steps, side);
    hide After;
    assert Numbered(w, d.packets, d.issued);
    hide *;
    DeliveredIsPrefix(w, steps, side, endpoint);
    AlwaysCountedOff(w, d.packets, d.issued, endpoint);
    ArrivalsAreFaithful(w, d, endpoint);
    AllDelivered(w, d, endpoint);
  }

  // ----- the merger with one loop per session and endpoint

  /** What the loop of one endpoint has handed over. */
  ghost function DeliveredAlone(w: World, d: Direction, endpoint: u64): seq<bytes> {
    Payloads(Reorder.Run(Reorder.ByEndpoint, w.merger, Streams.Only(d.merged, endpoint)).sent)
  }

  ghost predicate UndisturbedAlone(w: World, d: Direction, endpoint: u64) {
    && Numbering.NeverEvicted(w.endpointTTL, d.packets, endpoint)
    && |PacketsOf(d.issued, endpoint)| < MAX_U32
    && Delivery.NeverFlushes(Reorder.ByEndpoint, w.merger, Streams.Only(d.merged, endpoint))
  }

  /** What follows from the packet with which the loop of an endpoint began. */
  function FromFirst(packets: seq<bytes>, arrivals: seq<Reorder.Arrival>): seq<bytes> {
    if arrivals == [] || arrivals[0].msg.id == 0 || arrivals[0].msg.id > |packets| then [] else packets[arrivals[0].msg.id - 1..]
  }

  lemma {:induction false} FirstNonzeroIsFirst(arrivals: seq<Reorder.Arrival>)
    requires forall a :: a in arrivals ==> a.msg.id != 0
    ensures Delivery.FirstNonzero(arrivals) == if arrivals == [] then None else Some(arrivals[0].msg)
  {
    if arrivals != [] {
      var front := Reorder.Front(arrivals);
      assert forall a :: a in front ==> a in arrivals;
      assert Reorder.Last(arrivals) in arrivals;
      FirstNonzeroIsFirst(front);
    }
  }

  lemma ExactIsSlice(arrivals: seq<Reorder.Arrival>, r: Reorder.Outcome, packets: seq<bytes>)
    requires arrivals != [] && Faithful(arrivals, packets) && Delivery.Exact(arrivals[0].msg.id, arrivals, r)
    ensures Payloads(r.sent) <= FromFirst(packets, arrivals)
    ensures |r.sent| < |FromFirst(packets, arrivals)| ==> 1 <= r.list.lastID + 1 <= |packets|
  {
    var base: int := arrivals[0].msg.id;
    assert arrivals[0] in arrivals;
    var rest := FromFirst(packets, arrivals);
    forall i | 0 <= i < |r.sent| ensures i < |rest| && rest[i] == r.sent[i].payload {
      Delivery.FirstArrived(arrivals, r.sent[i].id);
    }
    if r.sent != [] { Delivery.FirstArrived(arrivals, r.sent[|r.sent| - 1].id); }
  }

  lemma AloneIsExact(w: World, d: Direction, endpoint: u64)
    requires UndisturbedAlone(w, d, endpoint)
    requires Faithful(Streams.Only(d.merged, endpoint), PacketsOf(d.issued, endpoint))
    ensures var mine := Streams.Only(d.merged, endpoint);
      var r := Reorder.Run(Reorder.ByEndpoint, w.merger, mine);
      if mine == [] then r.sent == [] else Delivery.Exact(mine[0].msg.id, mine, r)
  {
    var mine := Streams.Only(d.merged, endpoint);
    FirstNonzeroIsFirst(mine);
    Delivery.EndpointDeliveryIsExact(w.merger, mine);
  }

  lemma FinishedIsAll(w: World, d: Direction, endpoint: u64, r: Reorder.Outcome)
    requires DirectionInv(w, d) && CountedOff(d.issued, endpoint) && Finished(d, endpoint)
    requires |PacketsOf(d.issued, endpoint)| < MAX_U32
    requires var mine := Streams.Only(d.merged, endpoint);
      mine != [] && Faithful(mine, PacketsOf(d.issued, endpoint)) && Delivery.Exact(mine[0].msg.id, mine, r)
    ensures Payloads(r.sent) == FromFirst(PacketsOf(d.issued, endpoint), Streams.Only(d.merged, endpoint))
  {
    var mine, packets := Streams.Only(d.merged, endpoint), PacketsOf(d.issued, endpoint);
    ExactIsSlice(mine, r, packets);
    hide PacketsOf, Streams.Only, FromFirst, Faithful, DirectionInv, CountedOff;
    if |r.sent| < |FromFirst(packets, mine)| {
      FinishedIsReceived(w, d, endpoint, r.list.lastID + 1);
      assert false;
    }
  }

  lemma AloneDelivers(w: World, d: Direction, endpoint: u64)
    requires DirectionInv(w, d) && CountedOff(d.issued, endpoint) && UndisturbedAlone(w, d, endpoint)
    ensures var rest := FromFirst(PacketsOf(d.issued, endpoint), Streams.Only(d.merged, endpoint));
      && DeliveredAlone(w, d, endpoint) <= rest
      && (Finished(d, endpoint) ==> DeliveredAlone(w, d, endpoint) == rest)
  {
    var mine := Streams.Only(d.merged, endpoint);
    ArrivalsAreFaithful(w, d, endpoint);
    AloneIsExact(w, d, endpoint);
    if mine != [] {
      var r := Reorder.Run(Reorder.ByEndpoint, w.merger, mine);
      ExactIsSlice(mine, r, PacketsOf(d.issued, endpoint));
      hide Finished, CountedOff, DirectionInv, Faithful, Delivery.Exact, FromFirst, PacketsOf, Streams.Only;
      if Finished(d, endpoint) { FinishedIsAll(w, d, endpoint, r); }
    }
  }

  /** With a loop of its own, an endpoint loses at most the packets before the one that
      arrived first: what has been delivered is a prefix of those from there on, and all
      of them once everything is acknowledged and taken from the channel. */
  lemma AloneDeliversFromFirst(w: World, steps: seq<Step>, side: Side, endpoint: u64)
    requires Sensible(w) && UndisturbedAlone(w, From(After(w, steps), side), endpoint)
    ensures var d := From(After(w, steps), side);
      var rest := FromFirst(PacketsOf(d.issued, endpoint), Streams.Only(d.merged, endpoint));
      && DeliveredAlone(w, d, endpoint) <= rest
      && (Finished(d, endpoint) ==> DeliveredAlone(w, d, endpoint) == rest)
  {
    var d := From(After(w, steps), side);
    AlwaysInv(w, steps);
    assert DirectionInv(w, d) by { assert SideInv(w, After(w, steps), side); }
    hide After, Inv, CountedOff, DirectionInv, PacketsOf;
    assert CountedOff(d.issued, endpoint) by { hide *; AlwaysCountedOff(w, d.packets, d.issued, endpoint); }
    AloneDelivers(w, d, endpoint);
  }

  /** The same for a loop of the endpoint's own, whose gaps begin where it began. */
  lemma UndisturbedAloneIff(w: World, steps: seq<Step>, side: Side, endpoint: u64)
    requires Sensible(w)
    ensures var d := From(After(w, steps), side);
      UndisturbedAlone(w, d, endpoint)
      <==> (Numbering.NeverEvicted(w.endpointTTL, d.packets, endpoint) && |PacketsOf(d.issued, endpoint)| < MAX_U32
            && Backlog.GapsFit(Reorder.ByEndpoint, w.merger, Streams.Only(d.merged, endpoint)))
  {
    var d := From(After(w, steps), side);
    DirectionAlways(w, steps, side);
    hide After, Sensible;
    if Numbering.NeverEvicted(w.endpointTTL, d.packets, endpoint) && |PacketsOf(d.issued, endpoint)| < MAX_U32 {
      AlwaysCountedOff(w, d.packets, d.issued, endpoint);
      ArrivalsAreFaithful(w, d, endpoint);
      FaithfulIsBelowMax(Streams.Only(d.merged, endpoint), PacketsOf(d.issued, endpoint));
      Backlog.NeverFlushesIff(Reorder.ByEndpoint, w.merger, Streams.Only(d.merged, endpoint));
    }
  }
}
