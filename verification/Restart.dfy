/**
 What becomes of an endpoint whose counter was evicted: its numbers begin again at 1,
 while the list at the other side still knows the last number it handed over.
 */
module Restart {
  import opened Bytes
  import opened Acknowledgements
  import opened Retransmission
  import opened Protocol
  import opened ProtocolRuns
  import Delivery
  import Numbering
  import Reorder
  import Streams

  // ----- the run in which numbers begin again

  /** One packet of each of the endpoints below `n`. */
  function Crowd(n: nat): seq<Numbering.Packet>
    requires n <= Numbering.INITIAL_ENDPOINTS
  {
    seq(n, i requires 0 <= i < n => Numbering.Packet(i, 1, 1))
  }

  function Counted(n: nat): map<u64, Numbering.Counter>
    requires n <= Numbering.INITIAL_ENDPOINTS
  {
    if n == 0 then map[] else Counted(n - 1)[n - 1 := Numbering.Counter(1, 1)]
  }

  lemma {:induction false} CountedOnce(n: nat)
    requires n <= Numbering.INITIAL_ENDPOINTS
    ensures |Counted(n)| == n
    ensures forall e: u64 :: e in Counted(n) <==> e < n
    ensures forall e: u64 :: e in Counted(n) ==> Counted(n)[e] == Numbering.Counter(1, 1)
  {
    if n > 0 { CountedOnce(n - 1); }
  }

  lemma {:induction false} CrowdIsCounted(ttl: int, n: nat)
    requires n < Numbering.INITIAL_ENDPOINTS
    ensures Numbering.After(ttl, Crowd(n)) == Numbering.Table(Counted(n), Numbering.INITIAL_ENDPOINTS)
  {
    if n > 0 {
      CrowdIsCounted(ttl, n - 1);
      CountedOnce(n - 1);
      CountedOnce(n);
      assert Crowd(n)[..n - 1] == Crowd(n - 1);
    }
  }

  lemma AllGo(ttl: int)
    requires ttl > 0
    ensures Numbering.Read(Numbering.Table(Counted(99), 100), Numbering.Packet(99, 1, ttl + 2), ttl).counters == map[]
  {
    CountedOnce(99);
    CountedOnce(100);
    assert Numbering.Numbered(Numbering.Table(Counted(99), 100), Numbering.Packet(99, 1, ttl + 2)).counters == Counted(100);
    assert Numbering.Kept(Counted(100), ttl + 2, ttl) == map[];
  }

  /** A hundred endpoints send a packet each, and the last look at the clock comes after
      the time to live: all counters go, and the next packet of any endpoint is number 1
      again. */
  lemma NumbersBeginAgain(ttl: int, e: u64)
    requires ttl > 0 && e < Numbering.INITIAL_ENDPOINTS
    ensures var packets := Crowd(99) + [Numbering.Packet(99, 1, ttl + 2)];
      && packets[e].endpoint == e && Numbering.IdOf(ttl, packets, e) == 1
      && Numbering.NextID(Numbering.After(ttl, packets), e) == 1
  {
    var last := Numbering.Packet(99, 1, ttl + 2);
    var packets := Crowd(99) + [last];
    assert packets[..99] == Crowd(99) && packets[..e] == Crowd(e);
    CrowdIsCounted(ttl, 99);
    AllGo(ttl);
    CrowdIsCounted(ttl, e);
    CountedOnce(e);
    hide Numbering.Read, Counted;
  }

  // ----- what the list makes of it

  /** The packets after the eviction, in the order in which they were read. */
  ghost predicate BeginsAgain(again: seq<Reorder.Arrival>) {
    |again| < MAX_U32 && forall i :: 0 <= i < |again| ==> again[i].msg.id == i + 1
  }

  /** `s` follows a list with last ID `last` and messages `waiting` by `n` renumbered packets. */
  ghost predicate Resumed(last: u32, waiting: seq<Reorder.Message>, n: nat, s: Reorder.List) {
    && last <= s.lastID < MAX_U32 && n <= s.lastID
    && (forall id: u32 :: last < id && n < id <= s.lastID ==> Reorder.Has(waiting, id))
    && (forall id: u32 :: s.lastID < id ==> (Reorder.Has(s.waiting, id) <==> Reorder.Has(waiting, id)))
  }

  /** What one renumbered packet does: dropped as a duplicate, or handed over at once. */
  ghost predicate DroppedOrSent(last: u32, waiting: seq<Reorder.Message>, s: Reorder.List, a: Reorder.Arrival, step: Reorder.Outcome) {
    if a.msg.id <= last || Reorder.Has(waiting, a.msg.id) then step == Reorder.Outcome(s, [])
    else step.sent != [] && step.sent[0] == a.msg
  }

  lemma SuffixHas(w: seq<Reorder.Message>, k: nat, id: u32)
    requires k <= |w| && forall i :: 0 <= i < k ==> w[i].id < id
    ensures Reorder.Has(w[k..], id) <==> Reorder.Has(w, id)
  {
    if Reorder.Has(w, id) {
      var i :| 0 <= i < |w| && w[i].id == id;
      assert w[k..][i - k] == w[i];
    }
    if Reorder.Has(w[k..], id) {
      var i :| 0 <= i < |w[k..]| && w[k..][i].id == id;
      assert w[k + i].id == id;
    }
  }

  lemma DeliveredIds(s: Reorder.List, m: Reorder.Message)
    requires Reorder.Sorted(s.waiting) && m.id < MAX_U32
    requires forall i :: 0 <= i < |s.waiting| ==> m.id < s.waiting[i].id < MAX_U32
    ensures var next := Reorder.Deliver(s, m).list;
      && m.id <= next.lastID < MAX_U32
      && (forall id: u32 :: m.id < id <= next.lastID ==> Reorder.Has(s.waiting, id))
      && (forall id: u32 :: next.lastID < id ==> (Reorder.Has(next.waiting, id) <==> Reorder.Has(s.waiting, id)))
  {
    Reorder.DeliverSplits(s, m);
    assert !Reorder.Has(s.waiting, 0);
    Reorder.RunIsContiguous(s.waiting, m.id);
    var k, next := Reorder.RunLength(s.waiting, m.id), Reorder.Deliver(s, m).list;
    hide Reorder.Deliver, Reorder.RunLength, Reorder.Sorted;
    assert k > 0 ==> s.waiting[k - 1].id == next.lastID;
    forall id: u32 | m.id < id <= next.lastID ensures Reorder.Has(s.waiting, id) {
      assert s.waiting[id - m.id - 1].id == id;
    }
    hide Reorder.Has;
    forall id: u32 | next.lastID < id ensures Reorder.Has(next.waiting, id) <==> Reorder.Has(s.waiting, id) {
      SuffixHas(s.waiting, k, id);
    }
  }

  lemma DeliverResumes(last: u32, waiting: seq<Reorder.Message>, n: nat, s: Reorder.List, m: Reorder.Message)
    requires Resumed(last, waiting, n, s) && m.id == s.lastID + 1 == n + 1 && Reorder.Sorted(s.waiting)
    requires forall i :: 0 <= i < |s.waiting| ==> m.id < s.waiting[i].id < MAX_U32
    requires m.id < MAX_U32
    ensures Resumed(last, waiting, n + 1, Reorder.Deliver(s, m).list)
  {
    DeliveredIds(s, m);
    hide Reorder.Deliver, Reorder.Has, Reorder.Sorted;
  }

  lemma StepResumes(cfg: Reorder.Config, last: u32, waiting: seq<Reorder.Message>, n: nat, s: Reorder.List, a: Reorder.Arrival)
    requires Reorder.Inv(Reorder.BySession, cfg, s) && Resumed(last, waiting, n, s) && a.msg.id == n + 1 < MAX_U32
    requires forall i :: 0 <= i < |s.waiting| ==> s.waiting[i].id < MAX_U32
    ensures var step := Reorder.Step(Reorder.BySession, cfg, s, a);
      Resumed(last, waiting, n + 1, step.list) && DroppedOrSent(last, waiting, s, a, step)
  {
    if Reorder.Duplicate(s, a.msg.id) {
      assert s.lastID >= n + 1;
    } else {
      assert a.msg.id == s.lastID + 1;
      Reorder.NextIsBelowWaiting(Reorder.BySession, cfg, s, a.msg.id);
      DeliverResumes(last, waiting, n, s, a.msg);
    }
  }

  ghost predicate WaitingBelowMax(w: seq<Reorder.Message>) {
    forall i :: 0 <= i < |w| ==> w[i].id < MAX_U32
  }

  lemma AlwaysBelowMax(cfg: Reorder.Config, arrivals: seq<Reorder.Arrival>)
    requires Delivery.BelowMax(arrivals)
    ensures var s := Reorder.Run(Reorder.BySession, cfg, arrivals).list; s.lastID < MAX_U32 && WaitingBelowMax(s.waiting)
  {
    Delivery.DeliveryKeepsFirsts(Reorder.BySession, cfg, arrivals);
    Delivery.NothingIsInvented(Reorder.BySession, cfg, arrivals);
    var s := Reorder.Run(Reorder.BySession, cfg, arrivals).list;
    forall i | 0 <= i < |s.waiting| ensures s.waiting[i].id < MAX_U32 { assert s.waiting[i] in s.waiting; }
  }

  lemma BothBelowMax(before: seq<Reorder.Arrival>, again: seq<Reorder.Arrival>, n: nat)
    requires Delivery.BelowMax(before) && BeginsAgain(again) && n <= |again|
    ensures Delivery.BelowMax(before + again[..n])
  {
    forall a | a in before + again[..n] ensures a.msg.id < MAX_U32 {
      if a !in before {
        var i :| 0 <= i < n && again[..n][i] == a;
        assert again[i].msg.id == i + 1;
      }
    }
  }

  lemma ResumedAtOnce(cfg: Reorder.Config, before: seq<Reorder.Arrival>)
    requires Delivery.BelowMax(before)
    ensures var s := Reorder.Run(Reorder.BySession, cfg, before).list; Resumed(s.lastID, s.waiting, 0, s)
  {
    AlwaysBelowMax(cfg, before);
    hide Reorder.Run, Reorder.Has;
  }

  lemma {:induction false} RunResumes(cfg: Reorder.Config, before: seq<Reorder.Arrival>, again: seq<Reorder.Arrival>, n: nat)
    requires Delivery.BelowMax(before) && BeginsAgain(again) && n <= |again|
    ensures var s := Reorder.Run(Reorder.BySession, cfg, before).list;
      Resumed(s.lastID, s.waiting, n, Reorder.Run(Reorder.BySession, cfg, before + again[..n]).list)
  {
    hide Resumed, DroppedOrSent, Reorder.Run, Reorder.Step, BeginsAgain, Delivery.BelowMax;
    if n == 0 {
      ResumedAtOnce(cfg, before);
      assert before + again[..0] == before;
    } else {
      RunResumes(cfg, before, again, n - 1);
      RestartedStep(cfg, before, again, n - 1);
      assert before + again[..n] == (before + again[..n - 1]) + [again[n - 1]];
      Streams.RunAppend(Reorder.BySession, cfg, before + again[..n - 1], again[n - 1]);
    }
  }

  lemma RestartedStep(cfg: Reorder.Config, before: seq<Reorder.Arrival>, again: seq<Reorder.Arrival>, n: nat)
    requires Delivery.BelowMax(before) && BeginsAgain(again) && n < |again|
    requires var s := Reorder.Run(Reorder.BySession, cfg, before).list;
      Resumed(s.lastID, s.waiting, n, Reorder.Run(Reorder.BySession, cfg, before + again[..n]).list)
    ensures var s, met := Reorder.Run(Reorder.BySession, cfg, before).list, Reorder.Run(Reorder.BySession, cfg, before + again[..n]).list;
      var step := Reorder.Step(Reorder.BySession, cfg, met, again[n]);
      Resumed(s.lastID, s.waiting, n + 1, step.list) && DroppedOrSent(s.lastID, s.waiting, met, again[n], step)
  {
    var s := Reorder.Run(Reorder.BySession, cfg, before).list;
    BothBelowMax(before, again, n);
    AlwaysBelowMax(cfg, before + again[..n]);
    Reorder.RunKeepsInv(Reorder.BySession, cfg, before + again[..n]);
    hide Reorder.Run, Resumed, DroppedOrSent, Reorder.Inv, Reorder.Step;
    StepResumes(cfg, s.lastID, s.waiting, n, Reorder.Run(Reorder.BySession, cfg, before + again[..n]).list, again[n]);
  }

  /** Exactly which packets an eviction costs: of those read after it, arriving in order,
      the i-th is dropped if the list had handed over `i` messages or more by number, or
      an old message of that number still waits; every other one is handed over at once. */
  lemma RestartLosesExactly(cfg: Reorder.Config, before: seq<Reorder.Arrival>, again: seq<Reorder.Arrival>, i: nat)
    requires Delivery.BelowMax(before) && BeginsAgain(again) && i < |again|
    ensures var s, met := Reorder.Run(Reorder.BySession, cfg, before).list, Reorder.Run(Reorder.BySession, cfg, before + again[..i]).list;
      var step := Reorder.Step(Reorder.BySession, cfg, met, again[i]);
      if i + 1 <= s.lastID || Reorder.Has(s.waiting, i + 1) then step == Reorder.Outcome(met, [])
      else step.sent != [] && step.sent[0] == again[i].msg
  {
    RunResumes(cfg, before, again, i);
    RestartedStep(cfg, before, again, i);
    hide Reorder.Run, Resumed, Reorder.Step;
  }

  // ----- and yet they are acknowledged

  /** Every message the accumulator has taken is named by a batch or still buffered. */
  lemma TakenIsAcknowledged(w: World, steps: seq<Step>, side: Side, k: nat)
    requires Sensible(w) && w.maxAck >= ENDPOINT_SIZE + 4
    requires k < From(After(w, steps), side).acked
    ensures var d := From(After(w, steps), side);
      k < |d.received| && d.received[k].id in Total(Batched(w.maxAck, d.events), d.received[k].endpoint)
  {
    var d := From(After(w, steps), side);
    DirectionAlways(w, steps, side);
    assert InStep(d) by { hide InStep, After; }
    hide After, DirectionInv, Sensible;
    assert AckedKeys(d.events)[k] == KeyOfMessage(d.received[k]);
    KeyIsPushed(d.events, d.received[k].endpoint, d.received[k].id);
    BatchingConserves(w.maxAck, d.events, d.received[k].endpoint);
  }

  lemma {:induction false} KeyIsPushed(events: seq<Event>, e: u64, id: u32)
    requires Key(e, id) in AckedKeys(events)
    ensures id in IdsOf(events, e)
  {
    var before := events[..|events| - 1];
    if Key(e, id) in AckedKeys(before) { KeyIsPushed(before, e, id); }
  }

  /** After an eviction a packet is acknowledged and lost: the other side drops it, for its
      number has been handed over before or waits, and acknowledges it all the same, so
      that its entry leaves the table as if it had been delivered. */
  lemma AcknowledgedAndLost(w: World, steps: seq<Step>, side: Side, endpoint: u64,
        before: seq<Reorder.Arrival>, again: seq<Reorder.Arrival>, i: nat, k: nat)
    requires Sensible(w) && w.maxAck >= ENDPOINT_SIZE + 4
    requires var d := From(After(w, steps), side);
      && Streams.Only(d.merged, endpoint) == before + again && k < |d.merged| && k < d.acked
      && Delivery.BelowMax(before) && BeginsAgain(again) && i < |again| && d.merged[k] == again[i]
      && var s := Reorder.Run(Reorder.BySession, w.merger, before).list; i + 1 <= s.lastID || Reorder.Has(s.waiting, i + 1)
    ensures var d := From(After(w, steps), side);
      && k < |d.received| && d.received[k] == again[i].msg
      && d.received[k].id in Total(Batched(w.maxAck, d.events), d.received[k].endpoint)
      && var met := Reorder.Run(Reorder.BySession, w.merger, before + again[..i]).list;
      Reorder.Step(Reorder.BySession, w.merger, met, again[i]) == Reorder.Outcome(met, [])
  {
    DirectionAlways(w, steps, side);
    assert InStep(From(After(w, steps), side)) by { hide InStep, After; }
    hide After, DirectionInv, Sensible, Batched, Total, AckedKeys;
    TakenIsAcknowledged(w, steps, side, k);
    hide From, InStep;
    RestartLosesExactly(w.merger, before, again, i);
  }
}
