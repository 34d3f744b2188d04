/**
 When delivery can be completed: exactly when what waits in the stream's channel causes
 no flush, and something is left that carries every packet not yet received.
 */
module Completion {
  import opened Bytes
  import opened Retransmission
  import opened Protocol
  import opened ProtocolRuns
  import opened EndToEnd
  import opened Carriers
  import opened Recovery
  import Backlog
  import Delivery
  import Numbering
  import Reorder
  import Streams

  // ----- what the stream will take from its channel

  /** The two clock readings taken in handling the k-th message of the channel. */
  type Clock = nat -> (int, int)

  function ArrivalAt(d: Direction, clock: Clock, k: nat): Reorder.Arrival
    requires k < |d.received|
  {
    Reorder.Arrival(d.received[k], clock(k).0, clock(k).1)
  }

  /** What the stream has taken once its channel is empty. */
  function Drained(d: Direction, clock: Clock): seq<Reorder.Arrival> {
    seq(|d.received|, k requires 0 <= k < |d.received| => if k < |d.merged| then d.merged[k] else ArrivalAt(d, clock, k))
  }

  /** From `d` to `later` the stream has read the clock as `clock` says. */
  ghost predicate AsClocked(d: Direction, later: Direction, clock: Clock) {
    forall k: nat :: |d.merged| <= k < |later.merged| ==> (later.merged[k].pushedAt, later.merged[k].checkedAt) == clock(k)
  }

  /** Nothing of the endpoint is beyond reach: each packet was received or is carried. */
  ghost predicate AllReachable(w: World, d: Direction, wire: set<bytes>, endpoint: u64) {
    forall n: u32 :: 1 <= n <= |PacketsOf(d.issued, endpoint)| ==> Reachable(w, d, wire, Key(endpoint, n))
  }

  ghost predicate Reachable(w: World, d: Direction, wire: set<bytes>, key: Key) {
    WasReceived(d, key) || Carried(w, d, wire, key)
  }

  /** What is in the channel causes no flush, and nothing is beyond reach. */
  ghost predicate Completable(w: World, s: State, side: Side, endpoint: u64, clock: Clock) {
    var d := From(s, side);
    && Backlog.GapsFit(Reorder.BySession, w.merger, Streams.Only(Drained(d, clock), endpoint))
    && AllReachable(w, d, Wire(s, side), endpoint)
  }

  /** Everything read for the endpoint is delivered after `more`, in which nothing more is
      read for it and the stream reads the clock as `clock` says. */
  ghost predicate Completes(w: World, steps: seq<Step>, more: seq<Step>, side: Side, endpoint: u64, clock: Clock) {
    var d, later := From(After(w, steps), side), From(After(w, steps + more), side);
    && NothingRead(w, more, side, endpoint)
    && AsClocked(d, later, clock)
    && DeliveredTo(w, later, endpoint) == PacketsOf(d.issued, endpoint)
  }

  ghost predicate CanComplete(w: World, steps: seq<Step>, side: Side, endpoint: u64, clock: Clock) {
    exists more :: Completes(w, steps, more, side, endpoint, clock)
  }

  // ----- emptying the channel

  ghost predicate OnlyMerging(more: seq<Step>) {
    forall step :: step in more ==> step.Merge?
  }

  lemma MergingDrains(d: Direction, clock: Clock)
    requires |d.merged| < |d.received|
    ensures Drained(Merging(d, clock(|d.merged|).0, clock(|d.merged|).1), clock) == Drained(d, clock)
  {
  }

  lemma MergeTo(w: World, s: State, side: Side, pushedAt: int, checkedAt: int)
    requires |From(s, side).merged| < |From(s, side).received|
    ensures var step := Merge(Other(side), pushedAt, checkedAt);
      && Enabled(w, s, step)
      && From(Next(w, s, step), side) == Merging(From(s, side), pushedAt, checkedAt)
      && Wire(Next(w, s, step), side) == Wire(s, side)
  {
  }

  /** The stream can take everything from its channel, whatever the clock shows. */
  lemma {:induction false} ChannelCanBeDrained(w: World, steps: seq<Step>, side: Side, clock: Clock) returns (more: seq<Step>)
    requires |From(After(w, steps), side).merged| <= |From(After(w, steps), side).received|
    ensures OnlyMerging(more)
    ensures var d := From(After(w, steps), side);
      From(After(w, steps + more), side) == d.(merged := Drained(d, clock))
    ensures Wire(After(w, steps + more), side) == Wire(After(w, steps), side)
    decreases |From(After(w, steps), side).received| - |From(After(w, steps), side).merged|
  {
    var d := From(After(w, steps), side);
    if |d.merged| == |d.received| {
      more := [];
      assert steps + [] == steps;
      assert Drained(d, clock) == d.merged;
    } else {
      var (pushedAt, checkedAt) := clock(|d.merged|);
      var step := Merge(Other(side), pushedAt, checkedAt);
      MergeTo(w, After(w, steps), side, pushedAt, checkedAt);
      AfterMore(w, steps, step);
      MergingDrains(d, clock);
      hide After, Next, Enabled, Drained;
      var rest := ChannelCanBeDrained(w, steps + [step], side, clock);
      more := [step] + rest;
      ConcatIsAssociative(steps, [step], rest);
    }
  }

  // ----- one packet after the other

  /** Handing the stream the next message, or one it has had, never makes it flush. */
  lemma NextNeverFlushes(cfg: Reorder.Config, arrivals: seq<Reorder.Arrival>, a: Reorder.Arrival)
    requires Delivery.BelowMax(arrivals) && Delivery.NeverFlushes(Reorder.BySession, cfg, arrivals)
    requires var last := Reorder.Run(Reorder.BySession, cfg, arrivals).list.lastID;
      1 <= a.msg.id < MAX_U32 && last + 1 >= a.msg.id
    ensures Delivery.NeverFlushes(Reorder.BySession, cfg, arrivals + [a])
    ensures Reorder.Run(Reorder.BySession, cfg, arrivals + [a]).list.lastID >= a.msg.id
  {
    var s := Reorder.Run(Reorder.BySession, cfg, arrivals).list;
    Reorder.RunKeepsInv(Reorder.BySession, cfg, arrivals);
    Delivery.DeliveryKeepsFirsts(Reorder.BySession, cfg, arrivals);
    Streams.RunAppend(Reorder.BySession, cfg, arrivals, a);
    assert Reorder.Front(arrivals + [a]) == arrivals;
    if s.lastID < a.msg.id {
      assert !Reorder.Has(s.waiting, Inc32(s.lastID));
      Reorder.NextIsBelowWaiting(Reorder.BySession, cfg, s, a.msg.id);
      Reorder.DeliverSplits(s, a.msg);
    }
  }

  lemma OnlyAppend(arrivals: seq<Reorder.Arrival>, a: Reorder.Arrival)
    ensures Streams.Only(arrivals + [a], a.msg.endpoint) == Streams.Only(arrivals, a.msg.endpoint) + [a]
  {
    assert Reorder.Front(arrivals + [a]) == arrivals;
  }

  ghost predicate MergedUpTo(w: World, d: Direction, endpoint: u64, n: nat) {
    Reorder.Run(Reorder.BySession, w.merger, Streams.Only(d.merged, endpoint)).list.lastID >= n
  }

  /** The channel is empty, nothing was given up, and the first `n` packets are delivered. */
  ghost predicate UpTo(w: World, d: Direction, wire: set<bytes>, endpoint: u64, n: nat) {
    && |d.merged| == |d.received| && CountedOff(d.issued, endpoint) && Undisturbed(w, d, endpoint)
    && AllReachable(w, d, wire, endpoint) && MergedUpTo(w, d, endpoint, n)
  }

  lemma ReceivedIsMerged(d: Direction, endpoint: u64, n: u32)
    requires InStep(d) && |d.merged| == |d.received| && WasReceived(d, Key(endpoint, n))
    ensures n in Delivery.Received(Streams.Only(d.merged, endpoint))
  {
    var m :| m in d.received && m.endpoint == endpoint && m.id == n;
    var k :| 0 <= k < |d.received| && d.received[k] == m;
    Streams.OnlyIsSubset(d.merged, endpoint);
    hide Streams.Only, AckedKeys;
    assert d.merged[k] in d.merged && d.merged[k] in Streams.Only(d.merged, endpoint);
  }

  lemma ReceivedIsDelivered(cfg: Reorder.Config, arrivals: seq<Reorder.Arrival>, n: u32)
    requires Delivery.BelowMax(arrivals) && Delivery.NeverFlushes(Reorder.BySession, cfg, arrivals)
    requires n > 0 && Reorder.Run(Reorder.BySession, cfg, arrivals).list.lastID >= n - 1 && n in Delivery.Received(arrivals)
    ensures Reorder.Run(Reorder.BySession, cfg, arrivals).list.lastID >= n
  {
    Delivery.SessionDeliveryIsExact(cfg, arrivals);
    hide Reorder.Run, Delivery.Received;
  }

  lemma MergedIsBelowMax(w: World, d: Direction, endpoint: u64)
    requires DirectionInv(w, d) && CountedOff(d.issued, endpoint) && |PacketsOf(d.issued, endpoint)| < MAX_U32
    ensures Delivery.BelowMax(Streams.Only(d.merged, endpoint))
  {
    hide DirectionInv, CountedOff, PacketsOf, Streams.Only;
    ArrivalsAreFaithful(w, d, endpoint);
    FaithfulIsBelowMax(Streams.Only(d.merged, endpoint), PacketsOf(d.issued, endpoint));
  }

  /** A packet received has come out of the stream when those before it have. */
  lemma ReceivedIsNext(w: World, d: Direction, endpoint: u64, n: u32)
    requires DirectionInv(w, d) && CountedOff(d.issued, endpoint) && Undisturbed(w, d, endpoint)
    requires |d.merged| == |d.received| && n > 0 && MergedUpTo(w, d, endpoint, n - 1) && WasReceived(d, Key(endpoint, n))
    ensures MergedUpTo(w, d, endpoint, n)
  {
    MergedIsBelowMax(w, d, endpoint);
    assert InStep(d) by { hide InStep; }
    hide DirectionInv, CountedOff, WasReceived, InStep, Streams.Only, Reorder.Run, Delivery.BelowMax,
      Delivery.NeverFlushes, Delivery.Received;
    ReceivedIsMerged(d, endpoint, n);
    ReceivedIsDelivered(w.merger, Streams.Only(d.merged, endpoint), n);
  }

  /** A packet just received, next in number, can be merged, whatever the clock shows. */
  lemma NextIsMerged(w: World, d: Direction, endpoint: u64, n: u32, pushedAt: int, checkedAt: int)
    requires DirectionInv(w, d) && CountedOff(d.issued, endpoint) && Undisturbed(w, d, endpoint)
    requires 1 <= n <= |PacketsOf(d.issued, endpoint)| && MergedUpTo(w, d, endpoint, n - 1)
    requires |d.merged| < |d.received| && KeyOfMessage(d.received[|d.merged|]) == Key(endpoint, n)
    ensures var later := Merging(d, pushedAt, checkedAt); Undisturbed(w, later, endpoint) && MergedUpTo(w, later, endpoint, n)
  {
    ArrivalsAreFaithful(w, d, endpoint);
    var a := Reorder.Arrival(d.received[|d.merged|], pushedAt, checkedAt);
    OnlyAppend(d.merged, a);
    hide DirectionInv, CountedOff, PacketsOf, Streams.Only;
    NextNeverFlushes(w.merger, Streams.Only(d.merged, endpoint), a);
  }

  lemma ReachableStays(w: World, s: State, next: State, side: Side, endpoint: u64, n: u32)
    requires AllReachable(w, From(s, side), Wire(s, side), endpoint) && Brought(w, s, next, side, Key(endpoint, n))
    ensures AllReachable(w, From(next, side), Wire(next, side), endpoint)
    ensures WasReceived(From(next, side), Key(endpoint, n))
  {
    var d, later := From(s, side), From(next, side);
    assert later.received[|d.received|] in later.received;
    forall m | m in d.received ensures m in later.received {
      var k :| 0 <= k < |d.received| && d.received[k] == m;
      assert later.received[k] == m;
    }
    hide Carried, PacketsOf;
    forall k: u32 | 1 <= k <= |PacketsOf(later.issued, endpoint)| ensures Reachable(w, later, Wire(next, side), Key(endpoint, k)) {
      assert Reachable(w, d, Wire(s, side), Key(endpoint, k));
    }
  }

  lemma MergedStaysReachable(w: World, d: Direction, merged: seq<Reorder.Arrival>, wire: set<bytes>, endpoint: u64)
    requires AllReachable(w, d, wire, endpoint)
    ensures AllReachable(w, d.(merged := merged), wire, endpoint)
  {
    var later := d.(merged := merged);
    forall n: u32 | 1 <= n <= |PacketsOf(d.issued, endpoint)| ensures Reachable(w, later, wire, Key(endpoint, n)) {
      assert Reachable(w, d, wire, Key(endpoint, n));
      SameCarriersCarry(w, d, later, wire, Key(endpoint, n));
    }
  }

  lemma SameCarriersCarry(w: World, d: Direction, later: Direction, wire: set<bytes>, key: Key)
    requires SameCarriers(d, later) && d.received == later.received
    ensures Reachable(w, d, wire, key) ==> Reachable(w, later, wire, key)
  {
    hide Brings, Takeable, Opened;
  }

  /** What may be said of the direction while packet after packet is brought in. */
  ghost predicate OnlyForward(d: Direction, later: Direction, clock: Clock) {
    later.packets == d.packets && later.issued == d.issued && d.merged <= later.merged && AsClocked(d, later, clock)
  }

  lemma BetweenIsUndisturbed(w: World, d: Direction, between: Direction, endpoint: u64, n: nat)
    requires CountedOff(d.issued, endpoint) && Undisturbed(w, d, endpoint) && MergedUpTo(w, d, endpoint, n)
    requires between.packets == d.packets && between.issued == d.issued && between.merged == d.merged
    ensures CountedOff(between.issued, endpoint) && Undisturbed(w, between, endpoint) && MergedUpTo(w, between, endpoint, n)
  {
  }

  lemma MergingIsForward(d: Direction, between: Direction, key: Key, clock: Clock)
    requires OneReceived(d, between, key) && |d.merged| == |d.received|
    ensures OnlyForward(d, Merging(between, clock(|d.merged|).0, clock(|d.merged|).1), clock)
  {
  }

  lemma MergingIsUpTo(w: World, d: Direction, between: Direction, wire: set<bytes>, endpoint: u64, n: u32, pushedAt: int, checkedAt: int)
    requires |d.merged| == |d.received| && CountedOff(d.issued, endpoint) && Undisturbed(w, d, endpoint)
    requires 1 <= n <= |PacketsOf(d.issued, endpoint)| && MergedUpTo(w, d, endpoint, n - 1)
    requires DirectionInv(w, between) && OneReceived(d, between, Key(endpoint, n)) && AllReachable(w, between, wire, endpoint)
    ensures UpTo(w, Merging(between, pushedAt, checkedAt), wire, endpoint, n)
  {
    var later := Merging(between, pushedAt, checkedAt);
    hide CountedOff, MergedUpTo, PacketsOf, Carried, DirectionInv, AllReachable, Undisturbed;
    BetweenIsUndisturbed(w, d, between, endpoint, n - 1);
    NextIsMerged(w, between, endpoint, n, pushedAt, checkedAt);
    MergedStaysReachable(w, between, later.merged, wire, endpoint);
  }

  lemma MoreReadsNothing(front: seq<Step>, step: Step)
    requires OnlyBringing(front) && step.Merge?
    ensures ReadsNothing(front + [step])
  {
  }

  lemma MergeAfter(w: World, steps: seq<Step>, front: seq<Step>, side: Side, pushedAt: int, checkedAt: int)
    requires OnlyBringing(front)
    requires var d := From(After(w, steps + front), side); |d.merged| < |d.received|
    ensures var s, more := After(w, steps + front), front + [Merge(Other(side), pushedAt, checkedAt)];
      && ReadsNothing(more)
      && From(After(w, steps + more), side) == Merging(From(s, side), pushedAt, checkedAt)
      && Wire(After(w, steps + more), side) == Wire(s, side)
  {
    var step := Merge(Other(side), pushedAt, checkedAt);
    MergeTo(w, After(w, steps + front), side, pushedAt, checkedAt);
    AfterMore(w, steps + front, step);
    MoreReadsNothing(front, step);
    hide *;
    ConcatIsAssociative(steps, front, [step]);
  }

  lemma MergeNext(w: World, steps: seq<Step>, front: seq<Step>, side: Side, endpoint: u64, n: u32, clock: Clock) returns (more: seq<Step>)
    requires Sensible(w) && n > 0 && UpTo(w, From(After(w, steps), side), Wire(After(w, steps), side), endpoint, n - 1)
    requires n <= |PacketsOf(From(After(w, steps), side).issued, endpoint)|
    requires OnlyBringing(front) && Brought(w, After(w, steps), After(w, steps + front), side, Key(endpoint, n))
    ensures ReadsNothing(more) && UpTo(w, From(After(w, steps + more), side), Wire(After(w, steps + more), side), endpoint, n)
    ensures OnlyForward(From(After(w, steps), side), From(After(w, steps + more), side), clock)
  {
    var s, middle := After(w, steps), After(w, steps + front);
    var d, between := From(s, side), From(middle, side);
    var (pushedAt, checkedAt) := clock(|d.merged|);
    var step := Merge(Other(side), pushedAt, checkedAt);
    hide After, Next, Enabled, From, Wire, Sensible, CountedOff, MergedUpTo, PacketsOf, Carried,
      DirectionInv, Undisturbed, AllReachable, OthersStay;
    DirectionAlways(w, steps + front, side);
    ReachableStays(w, s, middle, side, endpoint, n);
    MergingIsUpTo(w, d, between, Wire(middle, side), endpoint, n, pushedAt, checkedAt);
    MergingIsForward(d, between, Key(endpoint, n), clock);
    MergeAfter(w, steps, front, side, pushedAt, checkedAt);
    hide UpTo, OnlyForward;
    more := front + [step];
  }

  /** One packet more can be delivered. */
  lemma OneMoreDelivered(w: World, steps: seq<Step>, side: Side, endpoint: u64, n: u32, clock: Clock) returns (more: seq<Step>)
    requires Sensible(w) && n > 0 && UpTo(w, From(After(w, steps), side), Wire(After(w, steps), side), endpoint, n - 1)
    requires n <= |PacketsOf(From(After(w, steps), side).issued, endpoint)|
    ensures ReadsNothing(more) && UpTo(w, From(After(w, steps + more), side), Wire(After(w, steps + more), side), endpoint, n)
    ensures OnlyForward(From(After(w, steps), side), From(After(w, steps + more), side), clock)
  {
    var d, key := From(After(w, steps), side), Key(endpoint, n);
    DirectionAlways(w, steps, side);
    hide After, Sensible, DirectionInv, CountedOff, Undisturbed, MergedUpTo, PacketsOf, Carried;
    if WasReceived(d, key) {
      more := [];
      assert steps + more == steps;
      ReceivedIsNext(w, d, endpoint, n);
    } else {
      assert Reachable(w, d, Wire(After(w, steps), side), key);
      var front := CarriedCanBeReceived(w, steps, side, key);
      more := MergeNext(w, steps, front, side, endpoint, n, clock);
    }
  }

  lemma ForwardChain(d: Direction, middle: Direction, later: Direction, clock: Clock)
    requires OnlyForward(d, middle, clock) && OnlyForward(middle, later, clock)
    ensures OnlyForward(d, later, clock)
  {
  }

  lemma {:induction false} AllDelivered(w: World, steps: seq<Step>, side: Side, endpoint: u64, n: nat, clock: Clock)
    returns (more: seq<Step>)
    requires Sensible(w) && UpTo(w, From(After(w, steps), side), Wire(After(w, steps), side), endpoint, 0)
    requires n <= |PacketsOf(From(After(w, steps), side).issued, endpoint)| < MAX_U32
    ensures ReadsNothing(more) && UpTo(w, From(After(w, steps + more), side), Wire(After(w, steps + more), side), endpoint, n)
    ensures OnlyForward(From(After(w, steps), side), From(After(w, steps + more), side), clock)
  {
    var d := From(After(w, steps), side);
    hide After, Sensible, UpTo, PacketsOf;
    if n == 0 {
      more := [];
      assert steps + more == steps;
    } else {
      var front := AllDelivered(w, steps, side, endpoint, n - 1, clock);
      var last := OneMoreDelivered(w, steps + front, side, endpoint, n, clock);
      more := front + last;
      assert steps + more == (steps + front) + last;
      ForwardChain(d, From(After(w, steps + front), side), From(After(w, steps + more), side), clock);
      hide OnlyForward;
    }
  }

  // ----- what is completable can be completed

  lemma MergedIsDelivered(w: World, d: Direction, endpoint: u64)
    requires DirectionInv(w, d) && CountedOff(d.issued, endpoint) && Undisturbed(w, d, endpoint)
    requires MergedUpTo(w, d, endpoint, |PacketsOf(d.issued, endpoint)|)
    ensures DeliveredTo(w, d, endpoint) == PacketsOf(d.issued, endpoint)
  {
    ArrivalsAreFaithful(w, d, endpoint);
    DeliveryIsExact(w, d, endpoint);
    var mine := Streams.Only(d.merged, endpoint);
    ExactIsPrefix(mine, Reorder.Run(Reorder.BySession, w.merger, mine), PacketsOf(d.issued, endpoint));
  }

  lemma DrainedIsForward(d: Direction, clock: Clock)
    requires InStep(d)
    ensures OnlyForward(d, d.(merged := Drained(d, clock)), clock)
  {
  }

  lemma DrainedIsUpTo(w: World, d: Direction, wire: set<bytes>, endpoint: u64, clock: Clock)
    requires DirectionInv(w, d.(merged := Drained(d, clock))) && CountedOff(d.issued, endpoint)
    requires Numbering.NeverEvicted(w.endpointTTL, d.packets, endpoint) && |PacketsOf(d.issued, endpoint)| < MAX_U32
    requires Backlog.GapsFit(Reorder.BySession, w.merger, Streams.Only(Drained(d, clock), endpoint))
    requires AllReachable(w, d, wire, endpoint)
    ensures UpTo(w, d.(merged := Drained(d, clock)), wire, endpoint, 0)
  {
    var later := d.(merged := Drained(d, clock));
    hide DirectionInv, CountedOff, PacketsOf, Streams.Only, Numbering.NeverEvicted, Carried, AllReachable,
      Delivery.NeverFlushes, Backlog.GapsFit;
    MergedIsBelowMax(w, later, endpoint);
    hide Delivery.BelowMax;
    Backlog.NeverFlushesIff(Reorder.BySession, w.merger, Streams.Only(later.merged, endpoint));
    MergedStaysReachable(w, d, later.merged, wire, endpoint);
  }

  lemma ReadsNothingOf(w: World, more: seq<Step>, side: Side, endpoint: u64)
    requires ReadsNothing(more)
    ensures NothingRead(w, more, side, endpoint)
  {
  }

  lemma MergingReadsNothing(drain: seq<Step>, rest: seq<Step>)
    requires OnlyMerging(drain) && ReadsNothing(rest)
    ensures ReadsNothing(drain + rest)
  {
  }

  lemma CountedOffAlways(w: World, d: Direction, endpoint: u64)
    requires DirectionInv(w, d)
    requires Numbering.NeverEvicted(w.endpointTTL, d.packets, endpoint) && |PacketsOf(d.issued, endpoint)| < MAX_U32
    ensures CountedOff(d.issued, endpoint)
  {
    AlwaysCountedOff(w, d.packets, d.issued, endpoint);
  }

  lemma UpToIsDelivered(w: World, later: Direction, wire: set<bytes>, d: Direction, endpoint: u64, clock: Clock)
    requires DirectionInv(w, later) && OnlyForward(d, later, clock)
    requires UpTo(w, later, wire, endpoint, |PacketsOf(d.issued, endpoint)|)
    ensures AsClocked(d, later, clock) && DeliveredTo(w, later, endpoint) == PacketsOf(d.issued, endpoint)
  {
    hide DirectionInv, CountedOff, PacketsOf, DeliveredTo, AllReachable, Undisturbed, MergedUpTo;
    MergedIsDelivered(w, later, endpoint);
  }

  lemma DrainedFirst(w: World, steps: seq<Step>, side: Side, endpoint: u64, clock: Clock) returns (drain: seq<Step>)
    requires Sensible(w)
    requires var d := From(After(w, steps), side);
      Numbering.NeverEvicted(w.endpointTTL, d.packets, endpoint) && |PacketsOf(d.issued, endpoint)| < MAX_U32
    requires Completable(w, After(w, steps), side, endpoint, clock)
    ensures OnlyMerging(drain) && OnlyForward(From(After(w, steps), side), From(After(w, steps + drain), side), clock)
    ensures UpTo(w, From(After(w, steps + drain), side), Wire(After(w, steps + drain), side), endpoint, 0)
  {
    var s := After(w, steps);
    var d := From(s, side);
    DirectionAlways(w, steps, side);
    assert InStep(d) by { hide InStep; }
    CountedOffAlways(w, d, endpoint);
    hide After, DirectionInv, CountedOff, PacketsOf, Sensible, Numbering.NeverEvicted, Backlog.GapsFit, AllReachable, Drained, From, Wire;
    drain := ChannelCanBeDrained(w, steps, side, clock);
    DirectionAlways(w, steps + drain, side);
    DrainedIsForward(d, clock);
    hide InStep, OnlyForward, UpTo;
    DrainedIsUpTo(w, d, Wire(s, side), endpoint, clock);
  }

  /** The channel is emptied, and then packet after packet is received and merged. */
  lemma CompletableCanComplete(w: World, steps: seq<Step>, side: Side, endpoint: u64, clock: Clock) returns (more: seq<Step>)
    requires Sensible(w)
    requires var d := From(After(w, steps), side);
      Numbering.NeverEvicted(w.endpointTTL, d.packets, endpoint) && |PacketsOf(d.issued, endpoint)| < MAX_U32
    requires Completable(w, After(w, steps), side, endpoint, clock)
    ensures ReadsNothing(more) && Completes(w, steps, more, side, endpoint, clock)
  {
    var d := From(After(w, steps), side);
    var drain := DrainedFirst(w, steps, side, endpoint, clock);
    hide After, From, Wire, PacketsOf, Sensible, Numbering.NeverEvicted, UpTo, DeliveredTo, Completable, DirectionInv;
    var middle := From(After(w, steps + drain), side);
    assert middle.issued == d.issued;
    var rest := AllDelivered(w, steps + drain, side, endpoint, |PacketsOf(d.issued, endpoint)|, clock);
    more := drain + rest;
    ConcatIsAssociative(steps, drain, rest);
    var later := From(After(w, steps + more), side);
    hide OnlyForward, OnlyMerging, ReadsNothing, NothingRead, AsClocked;
    DirectionAlways(w, steps + more, side);
    ForwardChain(d, middle, later, clock);
    UpToIsDelivered(w, later, Wire(After(w, steps + more), side), d, endpoint, clock);
    MergingReadsNothing(drain, rest);
    ReadsNothingOf(w, more, side, endpoint);
  }

  // ----- what is not completable cannot be

  lemma ReceivedIsLocal(w: World, s: State, step: Step, side: Side)
    requires Enabled(w, s, step) && !(step.Arrive? && step.side == side)
    ensures From(Next(w, s, step), side).received == From(s, side).received
  {
    hide Next, Enabled;
    if step.Acknowledge? || step.Expire? {
      WakingIsLocal(w, s, step);
    } else if step.Arrive? || step.Merge? {
      TakingIsLocal(w, s, step, side);
    } else if step.side == side {
      SendingTakesNothing(w, s, step);
    } else {
      SendingIsLocal(w, s, step, side);
    }
  }

  /** Only a datagram that brings it lets a packet be received. */
  lemma StepUnreceived(w: World, s: State, step: Step, side: Side, key: Key)
    requires Enabled(w, s, step) && !WasReceived(From(s, side), key) && !Carried(w, From(s, side), Wire(s, side), key)
    ensures !WasReceived(From(Next(w, s, step), side), key)
  {
    var d, later := From(s, side), From(Next(w, s, step), side);
    if step.Arrive? && step.side == side {
      assert step.datagram in Wire(s, side);
      ArrivingBrings(w, s, step);
      hide Next, Enabled, Brings, Unsent, Unstored, Awaited;
      forall m | m in later.received ensures m.endpoint != key.endpoint || m.id != key.id {
        var k :| 0 <= k < |later.received| && later.received[k] == m;
        if k < |d.received| { assert later.received[k] == d.received[k]; }
      }
    } else {
      hide Next, Enabled, Carried;
      ReceivedIsLocal(w, s, step, side);
    }
  }

  lemma StepUnreachable(w: World, s: State, step: Step, side: Side, key: Key)
    requires Sensible(w) && Inv(w, s) && Enabled(w, s, step) && !Reads(w, step, side, key.endpoint)
    requires !Reachable(w, From(s, side), Wire(s, side), key)
    ensures !Reachable(w, From(Next(w, s, step), side), Wire(Next(w, s, step), side), key)
  {
    StepUncarried(w, s, step, side, key);
    StepUnreceived(w, s, step, side, key);
    hide Carried, Next, Enabled, WasReceived;
  }

  lemma {:induction false} UnreachableStays(w: World, steps: seq<Step>, more: seq<Step>, side: Side, key: Key)
    requires Sensible(w) && NothingRead(w, more, side, key.endpoint)
    requires !Reachable(w, From(After(w, steps), side), Wire(After(w, steps), side), key)
    ensures !Reachable(w, From(After(w, steps + more), side), Wire(After(w, steps + more), side), key)
  {
    if more == [] {
      assert steps + more == steps;
    } else {
      var front, last := more[..|more| - 1], more[|more| - 1];
      NothingReadBefore(w, more, side, key.endpoint);
      UnreachableStays(w, steps, front, side, key);
      AfterLast(w, steps, more);
      AlwaysInv(w, steps + front);
      hide Sensible, Inv, Reachable, Enabled, Next, After, Reads, NothingRead;
      if Enabled(w, After(w, steps + front), last) { StepUnreachable(w, After(w, steps + front), last, side, key); }
    }
  }

  lemma ReadTo(w: World, s: State, step: Step)
    requires Enabled(w, s, step) && step.Read?
    ensures From(Next(w, s, step), step.side) == Reading(w, From(s, step.side), step.data, step.now, step.curTs)
  {
    hide Reading, Accumulating, OrderOfFlushed, Dispatched, Sealed;
  }

  lemma IssuedIsLocal(w: World, s: State, step: Step, side: Side)
    requires Enabled(w, s, step) && !(step.Read? && step.side == side)
    ensures From(Next(w, s, step), side).issued == From(s, side).issued
  {
    if step.Acknowledge? || step.Expire? {
      WakingIsLocal(w, s, step);
    } else if step.Arrive? || step.Merge? {
      TakingIsLocal(w, s, step, side);
    } else if step.side != side {
      SendingIsLocal(w, s, step, side);
    } else {
      hide Reading, Accumulating, OrderOfFlushed, Dispatched, Sealed;
    }
  }

  /** Reading nothing for an endpoint leaves its packets and their numbers alone. */
  lemma StepKeepsPackets(w: World, s: State, step: Step, side: Side, endpoint: u64)
    requires Inv(w, s) && Enabled(w, s, step) && !Reads(w, step, side, endpoint) && CountedOff(From(s, side).issued, endpoint)
    ensures var d, later := From(s, side), From(Next(w, s, step), side);
      PacketsOf(later.issued, endpoint) == PacketsOf(d.issued, endpoint) && CountedOff(later.issued, endpoint)
  {
    var d, later := From(s, side), From(Next(w, s, step), side);
    if step.Read? && step.side == side {
      assert d.from == side;
      ReadTo(w, s, step);
      hide Next, Enabled, Inv;
      var x := later.issued[|d.issued|];
      assert later.issued == d.issued + [x] && later.issued[..|d.issued|] == d.issued;
      OneOther(d.issued, x, endpoint);
      assert PacketsOf(d.issued, endpoint) + [] == PacketsOf(d.issued, endpoint);
    } else {
      hide Inv, CountedOff, PacketsOf;
      IssuedIsLocal(w, s, step, side);
    }
  }

  lemma {:induction false} PacketsStay(w: World, steps: seq<Step>, more: seq<Step>, side: Side, endpoint: u64)
    requires Sensible(w) && NothingRead(w, more, side, endpoint) && CountedOff(From(After(w, steps), side).issued, endpoint)
    ensures var d, later := From(After(w, steps), side), From(After(w, steps + more), side);
      PacketsOf(later.issued, endpoint) == PacketsOf(d.issued, endpoint) && CountedOff(later.issued, endpoint)
  {
    if more == [] {
      assert steps + more == steps;
    } else {
      var front, last := more[..|more| - 1], more[|more| - 1];
      NothingReadBefore(w, more, side, endpoint);
      PacketsStay(w, steps, front, side, endpoint);
      AfterLast(w, steps, more);
      AlwaysInv(w, steps + front);
      hide Sensible, Inv, CountedOff, PacketsOf, Enabled, Next, After, Reads, NothingRead;
      if Enabled(w, After(w, steps + front), last) { StepKeepsPackets(w, After(w, steps + front), last, side, endpoint); }
    }
  }

  /** What was received stays, in order, and so does what the stream has taken. */
  ghost predicate Longer(d: Direction, later: Direction) {
    d.received <= later.received && d.merged <= later.merged
  }

  lemma TakingIsLonger(w: World, s: State, step: Step, side: Side)
    requires Enabled(w, s, step) && (step.Arrive? || step.Merge?)
    ensures Longer(From(s, side), From(Next(w, s, step), side))
  {
    hide Opened, Accumulating, OrderOfFlushed, Sealed;
  }

  lemma StepIsLonger(w: World, s: State, step: Step, side: Side)
    requires Enabled(w, s, step)
    ensures Longer(From(s, side), From(Next(w, s, step), side))
  {
    hide Next, Enabled;
    if step.Acknowledge? || step.Expire? {
      WakingIsLocal(w, s, step);
    } else if step.side != side && Sending(step) {
      SendingIsLocal(w, s, step, side);
    } else if Sending(step) {
      SendingTakesNothing(w, s, step);
    } else {
      TakingIsLonger(w, s, step, side);
    }
  }

  lemma {:induction false} AlwaysLonger(w: World, steps: seq<Step>, more: seq<Step>, side: Side)
    ensures Longer(From(After(w, steps), side), From(After(w, steps + more), side))
  {
    if more == [] {
      assert steps + more == steps;
    } else {
      var front, last := more[..|more| - 1], more[|more| - 1];
      AlwaysLonger(w, steps, front, side);
      AfterLast(w, steps, more);
      hide Enabled, Next, After;
      if Enabled(w, After(w, steps + front), last) { StepIsLonger(w, After(w, steps + front), last, side); }
    }
  }

  /** Rising numbers from 1 to `n`, as many as there are, are all of them. */
  lemma {:induction false} RisingFills(sent: seq<Reorder.Message>, n: nat, i: nat)
    requires |sent| == n && i < n
    requires forall k :: 0 < k < n ==> sent[k - 1].id < sent[k].id
    requires forall k :: 0 <= k < n ==> 1 <= sent[k].id <= n
    ensures i + 1 <= sent[i].id
    decreases i
  {
    if i > 0 { RisingFills(sent, n, i - 1); }
  }

  lemma {:induction false} RisingFillsDown(sent: seq<Reorder.Message>, n: nat, i: nat)
    requires |sent| == n && i < n
    requires forall k :: 0 < k < n ==> sent[k - 1].id < sent[k].id
    requires forall k :: 0 <= k < n ==> 1 <= sent[k].id <= n
    ensures sent[i].id <= i + 1
    decreases n - i
  {
    if i < n - 1 { RisingFillsDown(sent, n, i + 1); }
  }

  /** As many packets delivered as there are means that they are counted off. */
  lemma FullIsCounted(cfg: Reorder.Config, arrivals: seq<Reorder.Arrival>, packets: seq<bytes>)
    requires Faithful(arrivals, packets) && |packets| < MAX_U32
    requires |Reorder.Run(Reorder.BySession, cfg, arrivals).sent| == |packets|
    ensures Delivery.CountsFromOne(Reorder.Run(Reorder.BySession, cfg, arrivals).sent)
  {
    var sent, n := Reorder.Run(Reorder.BySession, cfg, arrivals).sent, |packets|;
    Delivery.NothingIsInvented(Reorder.BySession, cfg, arrivals);
    Delivery.DeliveryIsOrdered(Reorder.BySession, cfg, arrivals);
    hide Reorder.Run;
    forall k | 0 <= k < n ensures 1 <= sent[k].id <= n { assert sent[k] in sent; }
    forall i | 0 <= i < n ensures sent[i].id == i + 1 {
      RisingFills(sent, n, i);
      RisingFillsDown(sent, n, i);
    }
  }

  lemma CountedIsReceived(w: World, d: Direction, endpoint: u64, n: u32)
    requires InStep(d)
    requires var sent := Reorder.Run(Reorder.BySession, w.merger, Streams.Only(d.merged, endpoint)).sent;
      Delivery.CountsFromOne(sent) && 1 <= n <= |sent|
    ensures WasReceived(d, Key(endpoint, n))
  {
    var mine := Streams.Only(d.merged, endpoint);
    var sent := Reorder.Run(Reorder.BySession, w.merger, mine).sent;
    Delivery.NothingIsInvented(Reorder.BySession, w.merger, mine);
    Streams.OnlyIsSubset(d.merged, endpoint);
    MergedIsReceived(d);
    hide Reorder.Run, Streams.Only, InStep;
    assert sent[n - 1] in sent && Delivery.Arrived(mine, sent[n - 1]);
  }

  /** Once everything is delivered, everything was received, and nothing was flushed. */
  lemma CompleteIsCounted(w: World, d: Direction, endpoint: u64)
    requires DirectionInv(w, d) && CountedOff(d.issued, endpoint) && |PacketsOf(d.issued, endpoint)| < MAX_U32
    requires DeliveredTo(w, d, endpoint) == PacketsOf(d.issued, endpoint)
    ensures var mine, n := Streams.Only(d.merged, endpoint), |PacketsOf(d.issued, endpoint)|;
      && Faithful(mine, PacketsOf(d.issued, endpoint)) && Delivery.BelowMax(mine)
      && Delivery.CountsFromOne(Reorder.Run(Reorder.BySession, w.merger, mine).sent)
      && |Reorder.Run(Reorder.BySession, w.merger, mine).sent| == n
  {
    ArrivalsAreFaithful(w, d, endpoint);
    Streams.EndpointsDoNotInterfere(w.merger, d.merged, endpoint);
    hide DirectionInv, CountedOff, PacketsOf, Streams.Only, Reorder.Run, Streams.StreamRun;
    FaithfulIsBelowMax(Streams.Only(d.merged, endpoint), PacketsOf(d.issued, endpoint));
    FullIsCounted(w.merger, Streams.Only(d.merged, endpoint), PacketsOf(d.issued, endpoint));
  }

  // ----- a run as seen from an earlier and a later state

  lemma {:induction false} OnlyConcat(one: seq<Reorder.Arrival>, two: seq<Reorder.Arrival>, endpoint: u64)
    ensures Streams.Only(one + two, endpoint) == Streams.Only(one, endpoint) + Streams.Only(two, endpoint)
  {
    if two == [] {
      assert one + two == one;
    } else {
      assert Reorder.Front(one + two) == one + Reorder.Front(two);
      OnlyConcat(one, Reorder.Front(two), endpoint);
    }
  }

  lemma {:induction false} FrontsFit(cfg: Reorder.Config, one: seq<Reorder.Arrival>, two: seq<Reorder.Arrival>)
    requires Backlog.GapsFit(Reorder.BySession, cfg, one + two)
    ensures Backlog.GapsFit(Reorder.BySession, cfg, one)
  {
    if two == [] {
      assert one + two == one;
    } else {
      assert Reorder.Front(one + two) == one + Reorder.Front(two);
      FrontsFit(cfg, one, Reorder.Front(two));
    }
  }

  /** What has been delivered already never causes a flush. */
  lemma {:induction false} OldNeverFlushes(cfg: Reorder.Config, one: seq<Reorder.Arrival>, two: seq<Reorder.Arrival>)
    requires Delivery.NeverFlushes(Reorder.BySession, cfg, one)
    requires var last := Reorder.Run(Reorder.BySession, cfg, one).list.lastID;
      last < MAX_U32 && forall a :: a in two ==> a.msg.id <= last
    ensures Delivery.NeverFlushes(Reorder.BySession, cfg, one + two)
    ensures Reorder.Run(Reorder.BySession, cfg, one + two).list == Reorder.Run(Reorder.BySession, cfg, one).list
  {
    if two == [] {
      assert one + two == one;
    } else {
      assert Reorder.Front(one + two) == one + Reorder.Front(two) && Reorder.Last(one + two) == Reorder.Last(two);
      assert Reorder.Last(two) in two && forall a :: a in Reorder.Front(two) ==> a in two;
      OldNeverFlushes(cfg, one, Reorder.Front(two));
    }
  }

  /** What the stream has taken in the end, and what it would have taken from the channel
      as it was, agree as far as they go. */
  lemma DrainedAgrees(d: Direction, later: Direction, clock: Clock, k: nat)
    requires InStep(d) && InStep(later) && Longer(d, later) && AsClocked(d, later, clock)
    requires k < |d.received| && k < |later.merged|
    ensures later.merged[k] == Drained(d, clock)[k]
  {
    if k >= |d.merged| { assert (later.merged[k].pushedAt, later.merged[k].checkedAt) == clock(k); }
  }

  lemma DrainedKeeps(w: World, d: Direction, clock: Clock)
    requires DirectionInv(w, d)
    ensures DirectionInv(w, d.(merged := Drained(d, clock)))
  {
    var later := d.(merged := Drained(d, clock));
    ProtocolRuns.ReceivedMore(d, later);
    hide Numbered, Shows, AckedKeys, WasReceived, KeyIssued;
  }

  lemma DrainedIsFaithful(w: World, d: Direction, endpoint: u64, clock: Clock)
    requires DirectionInv(w, d) && CountedOff(d.issued, endpoint)
    ensures Faithful(Streams.Only(Drained(d, clock), endpoint), PacketsOf(d.issued, endpoint))
  {
    hide DirectionInv, CountedOff, PacketsOf, Streams.Only, Drained, Faithful;
    DrainedKeeps(w, d, clock);
    ArrivalsAreFaithful(w, d.(merged := Drained(d, clock)), endpoint);
  }

  /** The stream has taken all of the channel. */
  lemma TakenFits(w: World, d: Direction, later: Direction, endpoint: u64, clock: Clock)
    requires InStep(d) && InStep(later) && Longer(d, later) && AsClocked(d, later, clock) && |d.received| <= |later.merged|
    requires Backlog.GapsFit(Reorder.BySession, w.merger, Streams.Only(later.merged, endpoint))
    ensures Backlog.GapsFit(Reorder.BySession, w.merger, Streams.Only(Drained(d, clock), endpoint))
  {
    var drained, tail := Drained(d, clock), later.merged[|d.received|..];
    assert later.merged == drained + tail by {
      forall k: nat | k < |d.received| ensures later.merged[k] == drained[k] { DrainedAgrees(d, later, clock, k); }
    }
    hide Drained, Streams.Only, Backlog.GapsFit;
    OnlyConcat(drained, tail, endpoint);
    FrontsFit(w.merger, Streams.Only(drained, endpoint), Streams.Only(tail, endpoint));
  }

  lemma CountedIsLast(cfg: Reorder.Config, arrivals: seq<Reorder.Arrival>)
    requires Delivery.CountsFromOne(Reorder.Run(Reorder.BySession, cfg, arrivals).sent)
    ensures var r := Reorder.Run(Reorder.BySession, cfg, arrivals); r.list.lastID == |r.sent|
  {
    Reorder.RunKeepsInv(Reorder.BySession, cfg, arrivals);
    Delivery.DeliveryIsOrdered(Reorder.BySession, cfg, arrivals);
    hide Reorder.Run;
  }

  lemma ConcatHas<T>(one: seq<T>, two: seq<T>)
    ensures forall x :: x in two ==> x in one + two
  {
  }

  /** Something of the channel is left, all of it delivered before. */
  lemma LeftFits(w: World, d: Direction, later: Direction, endpoint: u64, clock: Clock, packets: seq<bytes>)
    requires InStep(d) && InStep(later) && Longer(d, later) && AsClocked(d, later, clock) && |later.merged| < |d.received|
    requires |packets| < MAX_U32 && Faithful(Streams.Only(Drained(d, clock), endpoint), packets)
    requires Delivery.NeverFlushes(Reorder.BySession, w.merger, Streams.Only(later.merged, endpoint))
    requires Reorder.Run(Reorder.BySession, w.merger, Streams.Only(later.merged, endpoint)).list.lastID == |packets|
    ensures Backlog.GapsFit(Reorder.BySession, w.merger, Streams.Only(Drained(d, clock), endpoint))
  {
    var drained, tail := Drained(d, clock), Drained(d, clock)[|later.merged|..];
    assert drained == later.merged + tail by {
      forall k: nat | k < |later.merged| ensures later.merged[k] == drained[k] { DrainedAgrees(d, later, clock, k); }
    }
    hide Drained, Streams.Only, Backlog.GapsFit, Reorder.Run, Delivery.NeverFlushes, InStep, Longer, AsClocked;
    var mine, more := Streams.Only(later.merged, endpoint), Streams.Only(tail, endpoint);
    OnlyConcat(later.merged, tail, endpoint);
    ConcatHas(mine, more);
    OldNeverFlushes(w.merger, mine, more);
    FaithfulIsBelowMax(mine + more, packets);
    Backlog.NeverFlushesIff(Reorder.BySession, w.merger, mine + more);
  }

  lemma CompletedFits(w: World, d: Direction, later: Direction, endpoint: u64, clock: Clock)
    requires DirectionInv(w, d) && DirectionInv(w, later) && Longer(d, later) && AsClocked(d, later, clock)
    requires CountedOff(d.issued, endpoint) && CountedOff(later.issued, endpoint)
    requires PacketsOf(later.issued, endpoint) == PacketsOf(d.issued, endpoint) && |PacketsOf(d.issued, endpoint)| < MAX_U32
    requires DeliveredTo(w, later, endpoint) == PacketsOf(d.issued, endpoint)
    ensures Backlog.GapsFit(Reorder.BySession, w.merger, Streams.Only(Drained(d, clock), endpoint))
  {
    var mine, packets := Streams.Only(later.merged, endpoint), PacketsOf(d.issued, endpoint);
    assert InStep(d) && InStep(later) by { hide InStep; }
    hide DirectionInv, CountedOff, PacketsOf, DeliveredTo, Drained, Streams.Only, Faithful, InStep, Longer, AsClocked, Reorder.Run,
      Delivery.BelowMax, Delivery.CountsFromOne, Delivery.NeverFlushes, Backlog.GapsFit;
    CompleteIsCounted(w, later, endpoint);
    Delivery.NeverFlushesIffNoHole(w.merger, mine);
    if |d.received| <= |later.merged| {
      Backlog.NeverFlushesIff(Reorder.BySession, w.merger, mine);
      TakenFits(w, d, later, endpoint, clock);
    } else {
      CountedIsLast(w.merger, mine);
      DrainedIsFaithful(w, d, endpoint, clock);
      LeftFits(w, d, later, endpoint, clock, packets);
    }
  }

  lemma CompletedWasReachable(w: World, steps: seq<Step>, more: seq<Step>, side: Side, endpoint: u64, n: u32)
    requires Sensible(w) && NothingRead(w, more, side, endpoint)
    requires var later := From(After(w, steps + more), side);
      && CountedOff(later.issued, endpoint) && DeliveredTo(w, later, endpoint) == PacketsOf(later.issued, endpoint)
      && 1 <= n <= |PacketsOf(later.issued, endpoint)| < MAX_U32
    ensures Reachable(w, From(After(w, steps), side), Wire(After(w, steps), side), Key(endpoint, n))
  {
    var later := From(After(w, steps + more), side);
    DirectionAlways(w, steps + more, side);
    assert InStep(later) by { hide InStep, After; }
    hide After, Sensible, DirectionInv, CountedOff, PacketsOf, DeliveredTo, InStep, Carried, NothingRead,
      Streams.Only, Reorder.Run, Faithful, From, Wire;
    CompleteIsCounted(w, later, endpoint);
    CountedIsReceived(w, later, endpoint, n);
    if !Reachable(w, From(After(w, steps), side), Wire(After(w, steps), side), Key(endpoint, n)) {
      UnreachableStays(w, steps, more, side, Key(endpoint, n));
    }
  }

  lemma CompletedWasCompletable(w: World, steps: seq<Step>, more: seq<Step>, side: Side, endpoint: u64, clock: Clock)
    requires Sensible(w) && Completes(w, steps, more, side, endpoint, clock)
    requires var d := From(After(w, steps), side);
      Numbering.NeverEvicted(w.endpointTTL, d.packets, endpoint) && |PacketsOf(d.issued, endpoint)| < MAX_U32
    ensures Completable(w, After(w, steps), side, endpoint, clock)
  {
    var d, later := From(After(w, steps), side), From(After(w, steps + more), side);
    hide After, Sensible, DirectionInv, CountedOff, PacketsOf, DeliveredTo, NothingRead, Numbering.NeverEvicted, AsClocked, Longer,
      Drained, Streams.Only, Backlog.GapsFit, Reachable, From, Wire;
    DirectionAlways(w, steps, side);
    DirectionAlways(w, steps + more, side);
    CountedOffAlways(w, d, endpoint);
    PacketsStay(w, steps, more, side, endpoint);
    AlwaysLonger(w, steps, more, side);
    CompletedFits(w, d, later, endpoint, clock);
    forall n: u32 | 1 <= n <= |PacketsOf(d.issued, endpoint)|
      ensures Reachable(w, d, Wire(After(w, steps), side), Key(endpoint, n))
    {
      CompletedWasReachable(w, steps, more, side, endpoint, n);
    }
  }

  // ----- the theorem

  /** Whatever has been lost, doubled, delayed or reordered so far: without anything more
      being read for an endpoint, everything read can still be delivered, in order, exactly
      when what waits in the stream's channel causes no flush as the clock goes, and each
      packet was received or something is left that carries it. */
  lemma DeliveryCanCompleteIff(w: World, steps: seq<Step>, side: Side, endpoint: u64, clock: Clock)
    requires Sensible(w)
    requires var d := From(After(w, steps), side);
      Numbering.NeverEvicted(w.endpointTTL, d.packets, endpoint) && |PacketsOf(d.issued, endpoint)| < MAX_U32
    ensures CanComplete(w, steps, side, endpoint, clock) <==> Completable(w, After(w, steps), side, endpoint, clock)
  {
    hide After, Sensible, Numbering.NeverEvicted, PacketsOf, Completes, Completable, From;
    if Completable(w, After(w, steps), side, endpoint, clock) {
      var more := CompletableCanComplete(w, steps, side, endpoint, clock);
    }
    if CanComplete(w, steps, side, endpoint, clock) {
      var more :| Completes(w, steps, more, side, endpoint, clock);
      CompletedWasCompletable(w, steps, more, side, endpoint, clock);
    }
  }

  lemma OnlyFirst(a: Reorder.Arrival, endpoint: u64)
    requires a.msg.endpoint == endpoint
    ensures Streams.Only([a], endpoint) == [a]
  {
    assert Reorder.Front([a]) == [];
  }

  lemma ConcatBelowMax(a: Reorder.Arrival, rest: seq<Reorder.Arrival>)
    requires Delivery.BelowMax([a] + rest)
    ensures a.msg.id < MAX_U32 && Delivery.BelowMax(rest)
  {
    assert a in [a] + rest;
    ConcatHas([a], rest);
  }

  lemma LongHeadOverflows(w: World, d: Direction, endpoint: u64, clock: Clock)
    requires DirectionInv(w, d) && CountedOff(d.issued, endpoint) && |PacketsOf(d.issued, endpoint)| < MAX_U32
    requires d.merged == [] && d.received != [] && d.received[0].endpoint == endpoint
    requires 1 < d.received[0].id && d.received[0].length > w.merger.maxSize
    ensures !Backlog.GapsFit(Reorder.BySession, w.merger, Streams.Only(Drained(d, clock), endpoint))
  {
    var drained := Drained(d, clock);
    var a, rest := drained[0], drained[1..];
    assert drained == [a] + rest && a.msg == d.received[0];
    hide DirectionInv, CountedOff, PacketsOf, Drained, Backlog.GapsFit;
    DrainedIsFaithful(w, d, endpoint, clock);
    OnlyConcat([a], rest, endpoint);
    OnlyFirst(a, endpoint);
    hide Streams.Only;
    FaithfulIsBelowMax(Streams.Only(drained, endpoint), PacketsOf(d.issued, endpoint));
    ConcatBelowMax(a, Streams.Only(rest, endpoint));
    Backlog.LongHeadIsGivenUp(w.merger, a, Streams.Only(rest, endpoint));
  }

  /** One state in which it cannot: the stream has taken nothing, and a packet of the
      endpoint that is not its first, and is longer than the limit, is next in the
      channel. Number 1 may be carried still; once it comes, it is dropped. */
  lemma LongHeadBlocksCompletion(w: World, steps: seq<Step>, side: Side, endpoint: u64, clock: Clock)
    requires Sensible(w)
    requires var d := From(After(w, steps), side);
      && Numbering.NeverEvicted(w.endpointTTL, d.packets, endpoint) && |PacketsOf(d.issued, endpoint)| < MAX_U32
      && d.merged == [] && d.received != [] && d.received[0].endpoint == endpoint
      && 1 < d.received[0].id && d.received[0].length > w.merger.maxSize
    ensures !CanComplete(w, steps, side, endpoint, clock)
  {
    var d := From(After(w, steps), side);
    hide After, Sensible, DirectionInv, CountedOff, PacketsOf, Drained, CanComplete, AllReachable,
      Backlog.GapsFit, Numbering.NeverEvicted, From;
    DirectionAlways(w, steps, side);
    CountedOffAlways(w, d, endpoint);
    LongHeadOverflows(w, d, endpoint, clock);
    DeliveryCanCompleteIff(w, steps, side, endpoint, clock);
  }
}
