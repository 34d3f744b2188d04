/**
 What whole runs of one reordering list deliver: strictly ordered, nothing lost or
 invented, and, while no flush interferes, exactly the contiguous run of what was
 received, whatever the order and the duplicates.
 */
module Delivery {
  import opened Bytes
  import opened Reorder

  // ----- order

  ghost predicate InOrder(sent: seq<Message>) {
    forall i :: 0 < i < |sent| ==> sent[i - 1].id < sent[i].id || sent[i - 1].id == MAX_U32
  }

  /** `lastID` and `firstSent` are determined by what has been sent. */
  ghost predicate Tracks(r: Outcome) {
    && (r.list.firstSent <==> r.sent != [])
    && (r.sent != [] ==> r.list.lastID == Last(r.sent).id)
  }

  /** What a step hands over, seen from outside: a rising run of IDs that starts
      above the last one sent, or anywhere after the largest ID. */
  ghost predicate SendsAbove(s: List, step: Outcome) {
    && Sorted(step.sent)
    && (step.sent == [] ==> step.list.firstSent == s.firstSent && step.list.lastID == s.lastID)
    && (step.sent != [] ==> step.list.firstSent && step.list.lastID == Last(step.sent).id)
    && (step.sent != [] ==> s.lastID < step.sent[0].id || s.lastID == MAX_U32)
  }

  lemma DeliverSendsAbove(s: List, m: Message)
    requires Sorted(s.waiting) && (s.lastID < m.id || s.lastID == MAX_U32)
    requires forall i :: 0 <= i < |s.waiting| ==> m.id < s.waiting[i].id
    ensures SendsAbove(s, Deliver(s, m))
  {
    var run := s.waiting[..RunLength(s.waiting, m.id)];
    assert forall i :: 0 <= i < |run| ==> run[i] == s.waiting[i];
    assert Deliver(s, m).sent == [m] + run;
  }

  lemma FlushSendsAbove(v: Variant, cfg: Config, s: List, a: Arrival)
    requires Inv(v, cfg, s) && !Duplicate(s, a.msg.id) && !IsNext(v, s, a.msg.id)
    ensures SendsAbove(s, Flush(File(s, a)))
  {
    FileKeepsInv(v, cfg, s, a);
    InsertAdds(s.waiting, a.msg);
    var head := File(s, a).waiting[0];
    assert head in s.waiting || head == a.msg;
    assert head in s.waiting ==> Has(s.waiting, head.id);
  }

  lemma StepSendsAbove(v: Variant, cfg: Config, s: List, a: Arrival)
    requires Inv(v, cfg, s)
    ensures SendsAbove(s, Step(v, cfg, s, a))
  {
    if !Duplicate(s, a.msg.id) {
      if IsNext(v, s, a.msg.id) {
        NextIsBelowWaiting(v, cfg, s, a.msg.id);
        DeliverSendsAbove(s, a.msg);
      } else {
        FlushSendsAbove(v, cfg, s, a);
      }
    }
  }

  lemma SendingKeepsOrder(r: Outcome, step: Outcome)
    requires InOrder(r.sent) && Tracks(r) && SendsAbove(r.list, step)
    ensures InOrder(r.sent + step.sent) && Tracks(Outcome(step.list, r.sent + step.sent))
  {
    var sent := r.sent + step.sent;
    forall i | 0 < i < |sent| ensures sent[i - 1].id < sent[i].id || sent[i - 1].id == MAX_U32 {
      if i > |r.sent| { assert sent[i] == step.sent[i - |r.sent|] && sent[i - 1] == step.sent[i - 1 - |r.sent|]; }
    }
  }

  /** Flushes included, every delivered ID exceeds the one before it unless that
      one was the largest 32-bit number. */
  lemma {:induction false} DeliveryIsOrdered(v: Variant, cfg: Config, arrivals: seq<Arrival>)
    ensures InOrder(Run(v, cfg, arrivals).sent) && Tracks(Run(v, cfg, arrivals))
  {
    if arrivals != [] {
      var before := Run(v, cfg, Front(arrivals));
      DeliveryIsOrdered(v, cfg, Front(arrivals));
      RunKeepsInv(v, cfg, Front(arrivals));
      StepSendsAbove(v, cfg, before.list, Last(arrivals));
      SendingKeepsOrder(before, Step(v, cfg, before.list, Last(arrivals)));
    }
  }

  /** Below the largest ID nothing is ever delivered twice. */
  lemma {:induction false} DeliveryIsAtMostOnce(v: Variant, cfg: Config, arrivals: seq<Arrival>, i: nat, j: nat)
    requires i < j < |Run(v, cfg, arrivals).sent|
    requires forall a :: a in arrivals ==> a.msg.id < MAX_U32
    ensures Run(v, cfg, arrivals).sent[i].id < Run(v, cfg, arrivals).sent[j].id
    decreases j
  {
    var sent := Run(v, cfg, arrivals).sent;
    DeliveryIsOrdered(v, cfg, arrivals);
    NothingIsInvented(v, cfg, arrivals);
    assert sent[j - 1] in sent;
    assert sent[j - 1].id < sent[j].id;
    if i < j - 1 { DeliveryIsAtMostOnce(v, cfg, arrivals, i, j - 1); }
  }

  // ----- conservation

  /** The arrivals that are not dropped as duplicates. */
  ghost function Accepted(v: Variant, cfg: Config, arrivals: seq<Arrival>): seq<Message> {
    if arrivals == [] then []
    else
      Accepted(v, cfg, Front(arrivals)) +
      (if Duplicate(Run(v, cfg, Front(arrivals)).list, Last(arrivals).msg.id) then [] else [Last(arrivals).msg])
  }

  lemma DeliverConserves(s: List, m: Message)
    ensures var step := Deliver(s, m);
      multiset(step.sent) + multiset(step.list.waiting) == multiset(s.waiting) + multiset([m])
  {
    var n := RunLength(s.waiting, m.id);
    assert s.waiting == s.waiting[..n] + s.waiting[n..];
    assert multiset([m] + s.waiting[..n]) == multiset([m]) + multiset(s.waiting[..n]);
  }

  lemma StepConserves(v: Variant, cfg: Config, s: List, a: Arrival)
    ensures var step := Step(v, cfg, s, a);
      multiset(step.sent) + multiset(step.list.waiting)
      == multiset(s.waiting) + multiset(if Duplicate(s, a.msg.id) then [] else [a.msg])
  {
    if !Duplicate(s, a.msg.id) {
      if IsNext(v, s, a.msg.id) {
        DeliverConserves(s, a.msg);
      } else {
        InsertAdds(s.waiting, a.msg);
      }
    }
  }

  lemma ConcatConserves(before: Outcome, step: Outcome, accepted: seq<Message>, more: seq<Message>)
    requires multiset(accepted) == multiset(before.sent) + multiset(before.list.waiting)
    requires multiset(step.sent) + multiset(step.list.waiting) == multiset(before.list.waiting) + multiset(more)
    ensures multiset(accepted + more) == multiset(before.sent + step.sent) + multiset(step.list.waiting)
  {
    assert multiset(accepted + more) == multiset(accepted) + multiset(more);
    assert multiset(before.sent + step.sent) == multiset(before.sent) + multiset(step.sent);
    forall x ensures multiset(accepted + more)[x] == (multiset(before.sent + step.sent) + multiset(step.list.waiting))[x] {
      assert (multiset(step.sent) + multiset(step.list.waiting))[x] == (multiset(before.list.waiting) + multiset(more))[x];
    }
  }

  /** No message accepted is lost, doubled or invented: it is delivered or it waits. */
  lemma {:induction false} DeliveryConserves(v: Variant, cfg: Config, arrivals: seq<Arrival>)
    ensures var r := Run(v, cfg, arrivals);
      multiset(Accepted(v, cfg, arrivals)) == multiset(r.sent) + multiset(r.list.waiting)
  {
    if arrivals != [] {
      var before, a := Run(v, cfg, Front(arrivals)), Last(arrivals);
      var step := Step(v, cfg, before.list, a);
      DeliveryConserves(v, cfg, Front(arrivals));
      StepConserves(v, cfg, before.list, a);
      ConcatConserves(before, step, Accepted(v, cfg, Front(arrivals)),
                      if Duplicate(before.list, a.msg.id) then [] else [a.msg]);
    }
  }

  ghost predicate Arrived(arrivals: seq<Arrival>, m: Message) {
    exists a :: a in arrivals && a.msg == m
  }

  lemma {:induction false} AcceptedArrived(v: Variant, cfg: Config, arrivals: seq<Arrival>)
    ensures forall m :: m in Accepted(v, cfg, arrivals) ==> Arrived(arrivals, m)
  {
    if arrivals != [] {
      AcceptedArrived(v, cfg, Front(arrivals));
      assert Last(arrivals) in arrivals;
      assert forall a :: a in Front(arrivals) ==> a in arrivals;
    }
  }

  /** Whatever is delivered or waits has arrived. */
  lemma NothingIsInvented(v: Variant, cfg: Config, arrivals: seq<Arrival>)
    ensures var r := Run(v, cfg, arrivals);
      forall m :: m in r.sent || m in r.list.waiting ==> Arrived(arrivals, m)
  {
    var r := Run(v, cfg, arrivals);
    DeliveryConserves(v, cfg, arrivals);
    AcceptedArrived(v, cfg, arrivals);
    forall m | m in r.sent || m in r.list.waiting ensures m in Accepted(v, cfg, arrivals) {
      assert m in multiset(r.sent) + multiset(r.list.waiting);
    }
  }

  // ----- exact delivery

  ghost function Received(arrivals: seq<Arrival>): set<u32> {
    set a | a in arrivals :: a.msg.id
  }

  /** The message that arrived first under this ID. */
  ghost function FirstWith(arrivals: seq<Arrival>, id: u32): Message
    requires id in Received(arrivals)
  {
    if id in Received(Front(arrivals)) then FirstWith(Front(arrivals), id)
    else
      assert arrivals == Front(arrivals) + [Last(arrivals)];
      Last(arrivals).msg
  }

  ghost predicate IsFirst(arrivals: seq<Arrival>, m: Message) {
    m.id in Received(arrivals) && m == FirstWith(arrivals, m.id)
  }

  ghost predicate BelowMax(arrivals: seq<Arrival>) {
    forall a :: a in arrivals ==> a.msg.id < MAX_U32
  }

  lemma ReceivedMore(arrivals: seq<Arrival>)
    requires arrivals != []
    ensures Received(arrivals) == Received(Front(arrivals)) + {Last(arrivals).msg.id}
    ensures forall m :: IsFirst(Front(arrivals), m) ==> IsFirst(arrivals, m)
    ensures Last(arrivals).msg.id !in Received(Front(arrivals)) ==> IsFirst(arrivals, Last(arrivals).msg)
  {
    assert arrivals == Front(arrivals) + [Last(arrivals)];
    assert Last(arrivals) in arrivals;
  }

  /** Every ID received is already delivered, or given up, or waits. */
  ghost predicate Covered(ids: set<u32>, s: List) {
    forall id :: id in ids ==> id <= s.lastID || Has(s.waiting, id)
  }

  lemma HasConserved(sent: seq<Message>, left: seq<Message>, w: seq<Message>, more: seq<Message>, id: u32)
    requires multiset(sent) + multiset(left) == multiset(w) + multiset(more)
    requires Has(w, id) || Has(more, id)
    ensures Has(sent, id) || Has(left, id)
  {
    var x :| (x in w || x in more) && x.id == id;
    assert x in multiset(sent) + multiset(left);
  }

  lemma SortedBelowLast(sent: seq<Message>)
    requires Sorted(sent) && sent != []
    ensures forall id: u32 :: Has(sent, id) ==> id <= Last(sent).id
  {
  }

  lemma SendingKeepsCovered(ids: set<u32>, s: List, step: Outcome, m: Message)
    requires Covered(ids, s) && SendsAbove(s, step) && s.lastID < MAX_U32
    requires multiset(step.sent) + multiset(step.list.waiting) == multiset(s.waiting) + multiset([m])
    ensures Covered(ids + {m.id}, step.list)
  {
    if step.sent != [] { SortedBelowLast(step.sent); }
    assert Has([m], m.id) by { assert [m][0].id == m.id; }
    hide Sorted;
    forall id | id in ids + {m.id} ensures id <= step.list.lastID || Has(step.list.waiting, id) {
      if Has(s.waiting, id) || id == m.id {
        HasConserved(step.sent, step.list.waiting, s.waiting, [m], id);
      }
    }
  }

  lemma StepKeepsCovered(v: Variant, cfg: Config, ids: set<u32>, s: List, a: Arrival)
    requires Inv(v, cfg, s) && Covered(ids, s) && s.lastID < MAX_U32
    ensures Covered(ids + {a.msg.id}, Step(v, cfg, s, a).list)
  {
    StepConserves(v, cfg, s, a);
    StepSendsAbove(v, cfg, s, a);
    if Duplicate(s, a.msg.id) {
      assert Step(v, cfg, s, a) == Outcome(s, []);
    } else {
      hide Inv, Step, Duplicate, SendsAbove, Covered;
      SendingKeepsCovered(ids, s, Step(v, cfg, s, a), a.msg);
    }
  }

  /** In every run below the largest ID, flushes included: whatever is delivered or
      waits is the first arrival under its ID, and an ID that neither waits nor lies
      at or below `lastID` was never received. */
  lemma {:induction false} DeliveryKeepsFirsts(v: Variant, cfg: Config, arrivals: seq<Arrival>)
    requires BelowMax(arrivals)
    ensures var r := Run(v, cfg, arrivals);
      && r.list.lastID < MAX_U32
      && Covered(Received(arrivals), r.list)
      && (forall m :: m in r.sent || m in r.list.waiting ==> IsFirst(arrivals, m))
  {
    if arrivals != [] {
      var before, a := Run(v, cfg, Front(arrivals)), Last(arrivals);
      DeliveryKeepsFirsts(v, cfg, Front(arrivals));
      RunKeepsInv(v, cfg, Front(arrivals));
      ReceivedMore(arrivals);
      StepKeepsCovered(v, cfg, Received(Front(arrivals)), before.list, a);
      StepSendsAbove(v, cfg, before.list, a);
      StepConserves(v, cfg, before.list, a);
      var step := Step(v, cfg, before.list, a);
      forall m | m in step.sent || m in step.list.waiting ensures IsFirst(arrivals, m) {
        assert m in multiset(step.sent) + multiset(step.list.waiting);
        assert m in before.list.waiting || m == a.msg;
      }
      if step.sent != [] {
        assert Last(step.sent) in step.sent;
        assert Received(arrivals) == set x | x in arrivals :: x.msg.id;
      }
    }
  }

  ghost predicate NeverFlushes(v: Variant, cfg: Config, arrivals: seq<Arrival>) {
    arrivals != [] ==>
      var s, a := Run(v, cfg, Front(arrivals)).list, Last(arrivals);
      && NeverFlushes(v, cfg, Front(arrivals))
      && (Duplicate(s, a.msg.id) || IsNext(v, s, a.msg.id) || !Overflows(cfg, File(s, a), a.checkedAt))
  }

  ghost predicate Contiguous(sent: seq<Message>) {
    forall i :: 0 < i < |sent| ==> sent[i].id == sent[i - 1].id + 1
  }

  lemma DeliverIsContiguous(s: List, m: Message)
    requires Sorted(s.waiting) && !Has(s.waiting, 0)
    ensures Contiguous(Deliver(s, m).sent) && Deliver(s, m).sent[0] == m
  {
    RunIsContiguous(s.waiting, m.id);
    var sent := Deliver(s, m).sent;
    forall i | 0 < i < |sent| ensures sent[i].id == sent[i - 1].id + 1 {
      assert sent[i] == s.waiting[i - 1];
      assert i > 1 ==> sent[i - 1] == s.waiting[i - 2];
    }
  }

  lemma ConcatIsContiguous(sent: seq<Message>, more: seq<Message>)
    requires Contiguous(sent) && Contiguous(more)
    requires sent != [] && more != [] ==> more[0].id == Last(sent).id + 1
    ensures Contiguous(sent + more)
  {
    forall i | 0 < i < |sent + more| ensures (sent + more)[i].id == (sent + more)[i - 1].id + 1 {
      if i > |sent| { assert more[i - |sent|].id == more[i - |sent| - 1].id + 1; }
    }
  }

  /** Delivering the next message continues what was sent, or begins it. */
  lemma NextContinues(v: Variant, cfg: Config, r: Outcome, m: Message)
    requires Inv(v, cfg, r.list) && Tracks(r) && Contiguous(r.sent) && r.list.lastID < MAX_U32
    requires !Duplicate(r.list, m.id) && IsNext(v, r.list, m.id)
    ensures var sent := r.sent + Deliver(r.list, m).sent;
      && Contiguous(sent)
      && sent[0].id == if r.sent == [] then m.id else r.sent[0].id
    ensures v == BySession && r.sent == [] ==> m.id == 1
  {
    DeliverIsContiguous(r.list, m);
    ConcatIsContiguous(r.sent, Deliver(r.list, m).sent);
  }

  lemma {:induction false} DeliveryIsContiguous(v: Variant, cfg: Config, arrivals: seq<Arrival>)
    requires BelowMax(arrivals) && NeverFlushes(v, cfg, arrivals)
    ensures Contiguous(Run(v, cfg, arrivals).sent)
    ensures v == BySession && Run(v, cfg, arrivals).sent != [] ==> Run(v, cfg, arrivals).sent[0].id == 1
  {
    if arrivals != [] {
      var before, a := Run(v, cfg, Front(arrivals)), Last(arrivals);
      DeliveryIsContiguous(v, cfg, Front(arrivals));
      RunKeepsInv(v, cfg, Front(arrivals));
      DeliveryIsOrdered(v, cfg, Front(arrivals));
      DeliveryKeepsFirsts(v, cfg, Front(arrivals));
      hide Inv, Duplicate, IsNext, Tracks, Deliver, Contiguous, InOrder, Overflows, Covered, IsFirst;
      if !Duplicate(before.list, a.msg.id) && IsNext(v, before.list, a.msg.id) {
        NextContinues(v, cfg, before, a.msg);
      }
    }
  }

  /** `n` ends the contiguous run of `ids` that starts at `base`. */
  ghost predicate IsFrontier(ids: set<u32>, base: int, n: int) {
    base - 1 <= n && (forall i: int :: base <= i <= n ==> i in ids) && n + 1 !in ids
  }

  lemma FrontierIsUnique(ids: set<u32>, base: int, n: int, k: int)
    requires IsFrontier(ids, base, n) && IsFrontier(ids, base, k)
    ensures n == k
  {
    assert n < k ==> n + 1 in ids;
    assert k < n ==> k + 1 in ids;
  }

  /** `r` is what the received set demands: first arrivals of the run from `base` to
      its frontier are delivered, first arrivals above it wait. */
  ghost predicate Exact(base: int, arrivals: seq<Arrival>, r: Outcome) {
    && IsFrontier(Received(arrivals), base, r.list.lastID)
    && |r.sent| == r.list.lastID - base + 1
    && (forall i :: 0 <= i < |r.sent| ==> r.sent[i].id == base + i && IsFirst(arrivals, r.sent[i]))
    && (forall m :: m in r.list.waiting ==> m.id > r.list.lastID && IsFirst(arrivals, m))
    && (forall id :: id in Received(arrivals) && id > r.list.lastID ==> Has(r.list.waiting, id))
  }

  lemma {:induction false} ContiguousIds(sent: seq<Message>, i: nat)
    requires Contiguous(sent) && i < |sent|
    ensures sent[i].id == sent[0].id + i
  {
    if i > 0 { ContiguousIds(sent, i - 1); }
  }

  lemma RunIsExact(v: Variant, cfg: Config, arrivals: seq<Arrival>, base: int)
    requires BelowMax(arrivals) && NeverFlushes(v, cfg, arrivals)
    requires var r := Run(v, cfg, arrivals);
      if r.sent == [] then r.list.lastID == base - 1 else r.sent[0].id == base
    ensures Exact(base, arrivals, Run(v, cfg, arrivals))
  {
    var r := Run(v, cfg, arrivals);
    RunKeepsInv(v, cfg, arrivals);
    DeliveryIsOrdered(v, cfg, arrivals);
    DeliveryKeepsFirsts(v, cfg, arrivals);
    DeliveryIsContiguous(v, cfg, arrivals);
    forall i | 0 <= i < |r.sent| ensures r.sent[i].id == base + i && IsFirst(arrivals, r.sent[i]) {
      ContiguousIds(r.sent, i);
      assert r.sent[i] in r.sent;
    }
    forall i | base <= i <= r.list.lastID ensures i in Received(arrivals) {
      assert r.sent[i - base].id == i;
    }
  }

  /** One list per session and endpoint: without a flush the output is exactly
      1..n, where n is the largest such that all of {1..n} was received. */
  lemma SessionDeliveryIsExact(cfg: Config, arrivals: seq<Arrival>)
    requires BelowMax(arrivals) && NeverFlushes(BySession, cfg, arrivals)
    ensures Exact(1, arrivals, Run(BySession, cfg, arrivals))
  {
    RunKeepsInv(BySession, cfg, arrivals);
    DeliveryIsOrdered(BySession, cfg, arrivals);
    DeliveryIsContiguous(BySession, cfg, arrivals);
    RunIsExact(BySession, cfg, arrivals, 1);
  }

  /** Counted off from 1, without a hole. */
  ghost predicate CountsFromOne(sent: seq<Message>) {
    forall i :: 0 <= i < |sent| ==> sent[i].id == i + 1
  }

  lemma FlushLeavesHole(cfg: Config, r: Outcome, a: Arrival)
    requires Inv(BySession, cfg, r.list) && Tracks(r) && CountsFromOne(r.sent) && r.list.lastID < MAX_U32
    requires !Duplicate(r.list, a.msg.id) && !IsNext(BySession, r.list, a.msg.id)
    ensures !CountsFromOne(r.sent + Flush(File(r.list, a)).sent)
  {
    FileKeepsInv(BySession, cfg, r.list, a);
    InsertAdds(r.list.waiting, a.msg);
    var head := File(r.list, a).waiting[0];
    assert head in r.list.waiting || head == a.msg;
    assert head in r.list.waiting ==> Has(r.list.waiting, head.id);
    assert r.list.lastID == |r.sent|;
    assert (r.sent + Flush(File(r.list, a)).sent)[|r.sent|] == head;
  }

  lemma HoleStays(sent: seq<Message>, more: seq<Message>)
    requires CountsFromOne(sent + more)
    ensures CountsFromOne(sent)
  {
    assert forall i :: 0 <= i < |sent| ==> (sent + more)[i] == sent[i];
  }

  lemma LastLeavesHole(cfg: Config, arrivals: seq<Arrival>)
    requires arrivals != [] && BelowMax(arrivals) && !NeverFlushes(BySession, cfg, arrivals)
    requires CountsFromOne(Run(BySession, cfg, Front(arrivals)).sent) ==> NeverFlushes(BySession, cfg, Front(arrivals))
    ensures !CountsFromOne(Run(BySession, cfg, arrivals).sent)
  {
    var r, a := Run(BySession, cfg, Front(arrivals)), Last(arrivals);
    RunKeepsInv(BySession, cfg, Front(arrivals));
    DeliveryIsOrdered(BySession, cfg, Front(arrivals));
    DeliveryKeepsFirsts(BySession, cfg, Front(arrivals));
    hide CountsFromOne, Inv, Tracks, InOrder, Covered, IsFirst, Flush, File, Duplicate, IsNext, Overflows;
    if CountsFromOne(r.sent) {
      FlushLeavesHole(cfg, r, a);
    } else if CountsFromOne(Run(BySession, cfg, arrivals).sent) {
      HoleStays(r.sent, Step(BySession, cfg, r.list, a).sent);
    }
  }

  /** A session's list never flushes exactly when its output has no hole: what a flush
      skips is never delivered. */
  lemma {:induction false} NeverFlushesIffNoHole(cfg: Config, arrivals: seq<Arrival>)
    requires BelowMax(arrivals)
    ensures NeverFlushes(BySession, cfg, arrivals) <==> CountsFromOne(Run(BySession, cfg, arrivals).sent)
  {
    if NeverFlushes(BySession, cfg, arrivals) {
      SessionDeliveryIsExact(cfg, arrivals);
    } else {
      NeverFlushesIffNoHole(cfg, Front(arrivals));
      LastLeavesHole(cfg, arrivals);
    }
  }

  ghost function FirstNonzero(arrivals: seq<Arrival>): Option<Message> {
    if arrivals == [] then None
    else
      var before := FirstNonzero(Front(arrivals));
      if before.None? && Last(arrivals).msg.id != 0 then Some(Last(arrivals).msg) else before
  }

  lemma StartingStep(cfg: Config, r: Outcome, a: Arrival)
    requires Inv(ByEndpoint, cfg, r.list)
    ensures !r.list.firstSent && a.msg.id == 0 ==> Step(ByEndpoint, cfg, r.list, a).sent == []
    ensures !r.list.firstSent && a.msg.id != 0 ==>
      var sent := r.sent + Step(ByEndpoint, cfg, r.list, a).sent;
      r.sent == [] ==> sent != [] && sent[0] == a.msg
  {
  }

  lemma {:induction false} EndpointStartsAtFirstNonzero(cfg: Config, arrivals: seq<Arrival>)
    ensures var r := Run(ByEndpoint, cfg, arrivals);
      match FirstNonzero(arrivals)
      case None => r.sent == []
      case Some(m) => r.sent != [] && r.sent[0] == m && m.id != 0
  {
    if arrivals != [] {
      EndpointStartsAtFirstNonzero(cfg, Front(arrivals));
      RunKeepsInv(ByEndpoint, cfg, Front(arrivals));
      DeliveryIsOrdered(ByEndpoint, cfg, Front(arrivals));
      StartingStep(cfg, Run(ByEndpoint, cfg, Front(arrivals)), Last(arrivals));
    }
  }

  /** One loop per endpoint: the output starts at the first nonzero ID received and
      runs, without a gap, to the largest ID it can reach. */
  lemma EndpointDeliveryIsExact(cfg: Config, arrivals: seq<Arrival>)
    requires BelowMax(arrivals) && NeverFlushes(ByEndpoint, cfg, arrivals)
    ensures match FirstNonzero(arrivals)
      case None => Run(ByEndpoint, cfg, arrivals).sent == []
      case Some(m) => Exact(m.id, arrivals, Run(ByEndpoint, cfg, arrivals))
  {
    EndpointStartsAtFirstNonzero(cfg, arrivals);
    var first := FirstNonzero(arrivals);
    if first.Some? { RunIsExact(ByEndpoint, cfg, arrivals, first.value.id); }
  }

  lemma {:induction false} FirstArrived(arrivals: seq<Arrival>, id: u32)
    requires id in Received(arrivals)
    ensures exists a :: a in arrivals && a.msg == FirstWith(arrivals, id) && a.msg.id == id
  {
    assert arrivals == Front(arrivals) + [Last(arrivals)];
    if id in Received(Front(arrivals)) {
      FirstArrived(Front(arrivals), id);
    } else {
      assert Last(arrivals) in arrivals;
    }
  }

  /** Messages agree wherever their IDs do. */
  ghost predicate Consistent(one: seq<Arrival>, two: seq<Arrival>) {
    forall x, y :: x in one && y in two && x.msg.id == y.msg.id ==> x.msg == y.msg
  }

  lemma FirstsAgree(one: seq<Arrival>, two: seq<Arrival>, x: Message, y: Message)
    requires Consistent(one, two) && IsFirst(one, x) && IsFirst(two, y) && x.id == y.id
    ensures x == y
  {
    FirstArrived(one, x.id);
    FirstArrived(two, y.id);
  }

  /** Two arrival sequences of the same messages, in whatever order and with
      whatever duplicates, come out of a session stream as the same output. */
  lemma SessionOutputDependsOnTheSetOnly(cfg: Config, one: seq<Arrival>, two: seq<Arrival>)
    requires BelowMax(one) && NeverFlushes(BySession, cfg, one)
    requires BelowMax(two) && NeverFlushes(BySession, cfg, two)
    requires Received(one) == Received(two) && Consistent(one, two)
    ensures Run(BySession, cfg, one).sent == Run(BySession, cfg, two).sent
  {
    SessionDeliveryIsExact(cfg, one);
    SessionDeliveryIsExact(cfg, two);
    var a, b := Run(BySession, cfg, one), Run(BySession, cfg, two);
    FrontierIsUnique(Received(one), 1, a.list.lastID, b.list.lastID);
    ExactAgree(one, two, a, b);
  }

  lemma ExactAgree(one: seq<Arrival>, two: seq<Arrival>, a: Outcome, b: Outcome)
    requires Consistent(one, two) && Exact(1, one, a) && Exact(1, two, b)
    requires a.list.lastID == b.list.lastID
    ensures a.sent == b.sent
  {
    forall i | 0 <= i < |a.sent| ensures a.sent[i] == b.sent[i] {
      FirstsAgree(one, two, a.sent[i], b.sent[i]);
    }
  }

  // ----- when no flush can happen

  ghost function TotalSize(arrivals: seq<Arrival>): nat {
    if arrivals == [] then 0 else TotalSize(Front(arrivals)) + Last(arrivals).msg.length
  }

  ghost predicate InTime(cfg: Config, arrivals: seq<Arrival>) {
    forall x, y :: x in arrivals && y in arrivals ==> y.checkedAt - x.pushedAt < cfg.maxTTL
  }

  lemma DeliverShrinks(s: List, m: Message)
    ensures var next := Deliver(s, m).list;
      Size(next.waiting) <= Size(s.waiting) && (next.since == 0 || next.since == s.since)
  {
    var n := RunLength(s.waiting, m.id);
    assert s.waiting == s.waiting[..n] + s.waiting[n..];
    SizeConcat(s.waiting[..n], s.waiting[n..]);
  }

  lemma FlushEmpties(s: List)
    ensures Size(Flush(s).list.waiting) == 0 && Flush(s).list.since == s.since
  {
  }

  lemma StepBoundsWaiting(v: Variant, cfg: Config, s: List, a: Arrival)
    ensures var next := Step(v, cfg, s, a).list;
      && Size(next.waiting) <= Size(s.waiting) + a.msg.length
      && (next.since == 0 || next.since == s.since || next.since == a.pushedAt)
    ensures Size(File(s, a).waiting) == Size(s.waiting) + a.msg.length
  {
    InsertAdds(s.waiting, a.msg);
    DeliverShrinks(s, a.msg);
    FlushEmpties(File(s, a));
    hide Size, Insert, Duplicate, IsNext, Overflows, Deliver, Flush;
  }

  /** A run whose payloads all fit the waiting list and whose messages come within
      the time limit of one another never flushes. */
  lemma {:induction false} RoomyRunsNeverFlush(v: Variant, cfg: Config, arrivals: seq<Arrival>)
    requires TotalSize(arrivals) <= cfg.maxSize && InTime(cfg, arrivals)
    ensures NeverFlushes(v, cfg, arrivals)
    ensures var s := Run(v, cfg, arrivals).list;
      Size(s.waiting) <= TotalSize(arrivals) && (s.since == 0 || exists a :: a in arrivals && a.pushedAt == s.since)
  {
    if arrivals != [] {
      var s, a := Run(v, cfg, Front(arrivals)).list, Last(arrivals);
      assert a in arrivals && forall x :: x in Front(arrivals) ==> x in arrivals;
      RoomyRunsNeverFlush(v, cfg, Front(arrivals));
      StepBoundsWaiting(v, cfg, s, a);
    }
  }

  // ----- how long a message waits

  ghost predicate ClockAdvances(arrivals: seq<Arrival>) {
    && (forall i :: 0 <= i < |arrivals| ==> 0 < arrivals[i].pushedAt)
    && (forall i, j :: 0 <= i < j < |arrivals| ==> arrivals[i].pushedAt <= arrivals[j].pushedAt)
  }

  /** The `i`-th arrival brought `m`, was not dropped as a duplicate, and came at `t` or later. */
  ghost predicate AcceptedAt(v: Variant, cfg: Config, arrivals: seq<Arrival>, i: nat, m: Message, t: int) {
    && i < |arrivals| && arrivals[i].msg == m && arrivals[i].pushedAt >= t
    && !Duplicate(Run(v, cfg, arrivals[..i]).list, m.id)
  }

  ghost predicate AcceptedSince(v: Variant, cfg: Config, arrivals: seq<Arrival>, m: Message, t: int) {
    exists i :: AcceptedAt(v, cfg, arrivals, i, m, t)
  }

  /** The timestamp of a list is that of some arrival, and nothing that waits is older. */
  ghost predicate Dated(v: Variant, cfg: Config, arrivals: seq<Arrival>, s: List) {
    s.waiting != [] ==>
      && (exists a :: a in arrivals && a.pushedAt == s.since)
      && (forall m :: m in s.waiting ==> AcceptedSince(v, cfg, arrivals, m, s.since))
  }

  lemma StillAcceptedAt(v: Variant, cfg: Config, arrivals: seq<Arrival>, i: nat, m: Message, t: int)
    requires arrivals != [] && AcceptedAt(v, cfg, Front(arrivals), i, m, t)
    ensures AcceptedAt(v, cfg, arrivals, i, m, t)
  {
    assert Front(arrivals)[..i] == arrivals[..i];
  }

  lemma WaitingAfterStep(v: Variant, cfg: Config, s: List, a: Arrival)
    ensures var next := Step(v, cfg, s, a).list;
      && (forall m :: m in next.waiting ==> m in s.waiting || (m == a.msg && !Duplicate(s, a.msg.id)))
      && (next.waiting != [] ==> next.since == if s.waiting == [] then a.pushedAt else s.since)
  {
    InsertAdds(s.waiting, a.msg);
    hide Duplicate, IsNext, Insert, Size, RunLength;
  }

  lemma {:induction false} AlwaysDated(v: Variant, cfg: Config, arrivals: seq<Arrival>)
    requires ClockAdvances(arrivals)
    ensures Dated(v, cfg, arrivals, Run(v, cfg, arrivals).list)
  {
    if arrivals != [] {
      var front, a := Front(arrivals), Last(arrivals);
      var s, next := Run(v, cfg, front).list, Run(v, cfg, arrivals).list;
      AlwaysDated(v, cfg, front);
      WaitingAfterStep(v, cfg, s, a);
      hide Step, Run, Duplicate;
      if next.waiting != [] {
        assert a in arrivals && forall x :: x in front ==> x in arrivals;
        forall m | m in next.waiting ensures AcceptedSince(v, cfg, arrivals, m, next.since) {
          if m in s.waiting {
            var i :| AcceptedAt(v, cfg, front, i, m, s.since);
            StillAcceptedAt(v, cfg, arrivals, i, m, s.since);
          } else {
            assert arrivals[..|arrivals| - 1] == front;
            assert AcceptedAt(v, cfg, arrivals, |arrivals| - 1, m, next.since);
          }
        }
      }
    }
  }

  /** Whenever a message had to be filed, everything that still waits afterwards was
      accepted less than the time limit ago. */
  lemma WaitingIsBounded(v: Variant, cfg: Config, arrivals: seq<Arrival>, m: Message)
    requires ClockAdvances(arrivals) && arrivals != []
    requires var s, id := Run(v, cfg, Front(arrivals)).list, Last(arrivals).msg.id;
      !Duplicate(s, id) && !IsNext(v, s, id)
    requires m in Run(v, cfg, arrivals).list.waiting
    ensures AcceptedSince(v, cfg, arrivals, m, Last(arrivals).checkedAt - cfg.maxTTL + 1)
  {
    AlwaysDated(v, cfg, arrivals);
    var next := Run(v, cfg, arrivals).list;
    assert next.since > 0 && Last(arrivals).checkedAt - next.since < cfg.maxTTL;
    var i :| AcceptedAt(v, cfg, arrivals, i, m, next.since);
    assert AcceptedAt(v, cfg, arrivals, i, m, Last(arrivals).checkedAt - cfg.maxTTL + 1);
  }

  // ----- beyond the largest ID

  const TIGHT := Config(0, 0)

  function Bare(id: u32): Arrival {
    Arrival(Message(id, 0, 1, []), 1, 1)
  }

  /** Once the largest ID has been delivered, an old one is taken for new: here 7 comes
      first and last, and is delivered twice. */
  lemma AfterLargestIdOldIdsReturn()
    ensures var sent := Run(ByEndpoint, TIGHT, [Bare(7), Bare(MAX_U32), Bare(7)]).sent;
      sent == [Bare(7).msg, Bare(MAX_U32).msg, Bare(7).msg]
  {
    var one, two, all := [Bare(7)], [Bare(7), Bare(MAX_U32)], [Bare(7), Bare(MAX_U32), Bare(7)];
    assert Front(one) == [] && Front(two) == one && Front(all) == two;
    assert Run(ByEndpoint, TIGHT, one) == Outcome(List(7, true, [], 0), [Bare(7).msg]);
    assert Run(ByEndpoint, TIGHT, two) == Outcome(List(MAX_U32, true, [], 1), [Bare(7).msg, Bare(MAX_U32).msg]);
  }

  ghost predicate OnceEach(sent: seq<Message>) {
    forall i, j :: 0 <= i < j < |sent| ==> sent[i].id != sent[j].id
  }

  /** Nothing is delivered twice in any run on these IDs. */
  ghost predicate AlwaysOnce(v: Variant, cfg: Config, ids: set<u32>) {
    forall arrivals :: Received(arrivals) <= ids ==> OnceEach(Run(v, cfg, arrivals).sent)
  }

  /** The largest ID, looked at when the time limit has passed. */
  function Overdue(cfg: Config): Arrival {
    Arrival(Message(MAX_U32, 0, 1, []), 1, if cfg.maxTTL > 0 then 1 + cfg.maxTTL else 1)
  }

  lemma OverdueIsSent(v: Variant, cfg: Config, s: List)
    requires s.waiting == [] && (s == EMPTY || (s.firstSent && s.lastID == MAX_U32))
    ensures var step := Step(v, cfg, s, Overdue(cfg));
      step.sent == [Overdue(cfg).msg] && step.list.waiting == [] && step.list.firstSent && step.list.lastID == MAX_U32
  {
    var a := Overdue(cfg);
    if !IsNext(v, s, a.msg.id) {
      assert File(s, a).waiting == [a.msg] && File(s, a).since == 1;
      assert Overflows(cfg, File(s, a), a.checkedAt);
    } else {
      assert Deliver(s, a.msg).sent == [a.msg];
    }
  }

  /** Whatever the limits, the largest ID is delivered again when it comes again. */
  lemma LargestIdReturns(v: Variant, cfg: Config)
    ensures Run(v, cfg, [Overdue(cfg), Overdue(cfg)]).sent == [Overdue(cfg).msg, Overdue(cfg).msg]
  {
    var a := Overdue(cfg);
    var one, two := [a], [a, a];
    assert Front(one) == [] && Last(one) == a && Front(two) == one && Last(two) == a;
    OverdueIsSent(v, cfg, EMPTY);
    assert Run(v, cfg, one) == Outcome(Step(v, cfg, EMPTY, a).list, [] + Step(v, cfg, EMPTY, a).sent);
    OverdueIsSent(v, cfg, Run(v, cfg, one).list);
  }

  /** For either variant and every configuration, delivery is at most once exactly on
      the IDs below the largest. */
  lemma DeliveryIsAtMostOnceIff(v: Variant, cfg: Config, ids: set<u32>)
    ensures AlwaysOnce(v, cfg, ids) <==> MAX_U32 !in ids
  {
    if MAX_U32 in ids {
      var twice := [Overdue(cfg), Overdue(cfg)];
      LargestIdReturns(v, cfg);
      assert Received(twice) <= ids;
      assert Run(v, cfg, twice).sent[0].id == Run(v, cfg, twice).sent[1].id;
    } else {
      forall arrivals: seq<Arrival> | Received(arrivals) <= ids ensures OnceEach(Run(v, cfg, arrivals).sent) {
        forall i, j | 0 <= i < j < |Run(v, cfg, arrivals).sent|
          ensures Run(v, cfg, arrivals).sent[i].id != Run(v, cfg, arrivals).sent[j].id
        {
          assert forall a: Arrival :: a in arrivals ==> a.msg.id in Received(arrivals);
          DeliveryIsAtMostOnce(v, cfg, arrivals, i, j);
        }
      }
    }
  }
}
