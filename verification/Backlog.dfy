/**
 When a list flushes, said of its arrivals alone: how much lies above the contiguous
 run received so far, and for how long there has been a gap. The run begins at 1, or,
 for the loop of one endpoint, at the first nonzero ID.
 */
module Backlog {
  import opened Bytes
  import opened Reorder
  import opened Delivery

  // ----- the gap

  /** The end of the contiguous run of `ids` that begins after `n`. */
  ghost function RunFrom(ids: set<u32>, n: u32): u32
    decreases MAX_U32 - n
  {
    if n < MAX_U32 && n + 1 in ids then RunFrom(ids, n + 1) else n
  }

  /** The ID before the one with which the contiguous run begins. */
  ghost function Base(v: Variant, arrivals: seq<Arrival>): u32 {
    var first := FirstNonzero(arrivals);
    if v == BySession || first.None? || first.value.id == 0 then 0 else first.value.id - 1
  }

  ghost function Frontier(v: Variant, arrivals: seq<Arrival>): u32 {
    RunFrom(Received(arrivals), Base(v, arrivals))
  }

  /** Something above the frontier has been received. */
  ghost predicate Gap(v: Variant, arrivals: seq<Arrival>) {
    exists id :: id in Received(arrivals) && id > Frontier(v, arrivals)
  }

  /** When the gap that is now open was opened. */
  ghost function OpenedAt(v: Variant, arrivals: seq<Arrival>): int {
    if arrivals == [] then 0
    else if Gap(v, Front(arrivals)) then OpenedAt(v, Front(arrivals)) else Last(arrivals).pushedAt
  }

  /** The arrivals that were the first under their ID. */
  ghost function Firsts(arrivals: seq<Arrival>): seq<Message> {
    if arrivals == [] then []
    else Firsts(Front(arrivals)) + (if Last(arrivals).msg.id in Received(Front(arrivals)) then [] else [Last(arrivals).msg])
  }

  function Above(w: seq<Message>, n: int): (size: nat) {
    if w == [] then 0 else (if w[0].id > n then w[0].length else 0) + Above(w[1..], n)
  }

  /** The run has a beginning. */
  ghost predicate Begun(v: Variant, arrivals: seq<Arrival>) {
    v == BySession || FirstNonzero(arrivals).Some?
  }

  /** The latest arrival is new and leaves a gap before it. */
  ghost predicate OpensOrWidens(v: Variant, arrivals: seq<Arrival>) {
    && arrivals != []
    && Begun(v, Front(arrivals))
    && Last(arrivals).msg.id !in Received(Front(arrivals))
    && Last(arrivals).msg.id > Frontier(v, Front(arrivals)) + 1
  }

  /** Whenever the gap opens or widens, what lies above it fits and it is young enough. */
  ghost predicate GapsFit(v: Variant, cfg: Config, arrivals: seq<Arrival>) {
    arrivals != [] ==>
      && GapsFit(v, cfg, Front(arrivals))
      && (OpensOrWidens(v, arrivals) ==>
        && Above(Firsts(arrivals), Frontier(v, arrivals)) <= cfg.maxSize
        && (OpenedAt(v, arrivals) == 0 || Last(arrivals).checkedAt - OpenedAt(v, arrivals) < cfg.maxTTL))
  }

  // ----- facts about them

  lemma {:induction false} RunFromEnds(ids: set<u32>, n: u32)
    ensures var f := RunFrom(ids, n);
      && n <= f && (forall i: int :: n < i <= f ==> i in ids)
      && (f < MAX_U32 ==> f + 1 !in ids)
    decreases MAX_U32 - n
  {
    if n < MAX_U32 && n + 1 in ids { RunFromEnds(ids, n + 1); }
  }

  lemma FrontierIs(v: Variant, arrivals: seq<Arrival>, n: u32)
    requires BelowMax(arrivals) && n < MAX_U32 && IsFrontier(Received(arrivals), Base(v, arrivals) + 1, n)
    ensures Frontier(v, arrivals) == n
  {
    RunFromEnds(Received(arrivals), Base(v, arrivals));
    var f := Frontier(v, arrivals);
    assert f > n ==> n + 1 in Received(arrivals);
    assert f < n ==> f + 1 in Received(arrivals);
  }

  lemma {:induction false} AboveConcat(a: seq<Message>, b: seq<Message>, n: int)
    ensures Above(a + b, n) == Above(a, n) + Above(b, n)
  {
    if a == [] {
      assert a + b == b;
    } else {
      assert (a + b)[1..] == a[1..] + b;
      AboveConcat(a[1..], b, n);
    }
  }

  lemma TakeOut(b: seq<Message>, m: Message, n: int) returns (rest: seq<Message>)
    requires m in multiset(b)
    ensures |b| == |rest| + 1 && multiset(rest) == multiset(b) - multiset{m}
    ensures Above(b, n) == Above([m], n) + Above(rest, n)
  {
    var i :| 0 <= i < |b| && b[i] == m;
    rest := b[..i] + b[i + 1..];
    assert b == b[..i] + ([m] + b[i + 1..]);
    AboveConcat(b[..i], [m] + b[i + 1..], n);
    AboveConcat([m], b[i + 1..], n);
    AboveConcat(b[..i], b[i + 1..], n);
    hide Above;
  }

  lemma {:induction false} AbovePermutes(a: seq<Message>, b: seq<Message>, n: int)
    requires multiset(a) == multiset(b)
    ensures Above(a, n) == Above(b, n)
    decreases |a|
  {
    if a == [] {
      assert |multiset(b)| == |b|;
    } else {
      var m := a[0];
      assert m in multiset(a);
      hide Above;
      var restA := TakeOut(a, m, n);
      var restB := TakeOut(b, m, n);
      AbovePermutes(restA, restB, n);
    }
  }

  lemma {:induction false} AboveAll(w: seq<Message>, n: int)
    ensures (forall m :: m in w ==> m.id > n) ==> Above(w, n) == Size(w)
    ensures (forall m :: m in w ==> m.id <= n) ==> Above(w, n) == 0
  {
    if w != [] {
      assert w == [w[0]] + w[1..];
      AboveAll(w[1..], n);
    }
  }

  // ----- what the list knows of them

  lemma {:induction false} FirstNonzeroIsReceived(arrivals: seq<Arrival>)
    ensures var first := FirstNonzero(arrivals);
      if first.Some? then first.value.id in Received(arrivals) && first.value.id != 0
      else forall a :: a in arrivals ==> a.msg.id == 0
  {
    if arrivals != [] {
      FirstNonzeroIsReceived(Front(arrivals));
      assert arrivals == Front(arrivals) + [Last(arrivals)];
      assert Last(arrivals) in arrivals;
    }
  }

  /** Before the run has begun nothing has happened to the list. */
  lemma {:induction false} NothingBegun(cfg: Config, arrivals: seq<Arrival>)
    requires FirstNonzero(arrivals).None?
    ensures Run(ByEndpoint, cfg, arrivals) == Outcome(EMPTY, []) && Accepted(ByEndpoint, cfg, arrivals) == []
  {
    if arrivals != [] { NothingBegun(cfg, Front(arrivals)); }
  }

  /** The output begins after the base, whichever loop drives the list. */
  lemma DeliveryIsExact(v: Variant, cfg: Config, arrivals: seq<Arrival>)
    requires BelowMax(arrivals) && NeverFlushes(v, cfg, arrivals) && Begun(v, arrivals)
    ensures Exact(Base(v, arrivals) + 1, arrivals, Run(v, cfg, arrivals))
  {
    if v == BySession {
      SessionDeliveryIsExact(cfg, arrivals);
    } else {
      FirstNonzeroIsReceived(arrivals);
      EndpointDeliveryIsExact(cfg, arrivals);
    }
  }

  lemma DuplicateIffReceived(v: Variant, cfg: Config, arrivals: seq<Arrival>, id: u32)
    requires BelowMax(arrivals) && NeverFlushes(v, cfg, arrivals) && Begun(v, arrivals)
    ensures Duplicate(Run(v, cfg, arrivals).list, id) <==> id in Received(arrivals) || id <= Base(v, arrivals)
  {
    DeliveryIsExact(v, cfg, arrivals);
    DeliveryKeepsFirsts(v, cfg, arrivals);
  }

  /** The base is settled once the run has begun. */
  lemma BaseStays(v: Variant, arrivals: seq<Arrival>)
    requires arrivals != [] && Begun(v, Front(arrivals))
    ensures Begun(v, arrivals) && Base(v, arrivals) == Base(v, Front(arrivals))
  {
  }

  lemma {:induction false} AboveZeros(arrivals: seq<Arrival>, n: nat)
    requires FirstNonzero(arrivals).None?
    ensures Above(Firsts(arrivals), n) == 0
  {
    if arrivals != [] {
      AboveZeros(Front(arrivals), n);
      AboveConcat(Firsts(Front(arrivals)), if Last(arrivals).msg.id in Received(Front(arrivals)) then [] else [Last(arrivals).msg], n);
    }
  }

  lemma {:induction false} AcceptedAreFirsts(v: Variant, cfg: Config, arrivals: seq<Arrival>, n: nat)
    requires BelowMax(arrivals) && NeverFlushes(v, cfg, arrivals) && n >= Base(v, arrivals)
    ensures Above(Accepted(v, cfg, arrivals), n) == Above(Firsts(arrivals), n)
  {
    if arrivals != [] {
      var front, a := Front(arrivals), Last(arrivals);
      AboveConcat(Accepted(v, cfg, front), if Duplicate(Run(v, cfg, front).list, a.msg.id) then [] else [a.msg], n);
      AboveConcat(Firsts(front), if a.msg.id in Received(front) then [] else [a.msg], n);
      if Begun(v, front) {
        BaseStays(v, arrivals);
        AcceptedAreFirsts(v, cfg, front, n);
        DuplicateIffReceived(v, cfg, front, a.msg.id);
      } else {
        NothingBegun(cfg, front);
        AboveZeros(front, n);
        FirstNonzeroIsReceived(front);
      }
      hide Run, Base, NeverFlushes, BelowMax, Duplicate, FirstNonzero;
    }
  }

  /** What waits is what lies above the frontier. */
  lemma WaitingIsAbove(v: Variant, cfg: Config, arrivals: seq<Arrival>)
    requires BelowMax(arrivals) && NeverFlushes(v, cfg, arrivals) && Begun(v, arrivals)
    ensures var s := Run(v, cfg, arrivals).list;
      && s.lastID == Frontier(v, arrivals) && s.lastID < MAX_U32
      && (s.waiting != [] <==> Gap(v, arrivals))
      && Size(s.waiting) == Above(Firsts(arrivals), s.lastID)
  {
    var r := Run(v, cfg, arrivals);
    DeliveryIsExact(v, cfg, arrivals);
    DeliveryKeepsFirsts(v, cfg, arrivals);
    FrontierIs(v, arrivals, r.list.lastID);
    DeliveryConserves(v, cfg, arrivals);
    AcceptedAreFirsts(v, cfg, arrivals, r.list.lastID);
    GapIsWaiting(v, arrivals, r);
    hide Run, Received, Sorted, IsFirst, Base;
    assert multiset(r.sent + r.list.waiting) == multiset(Accepted(v, cfg, arrivals));
    AbovePermutes(r.sent + r.list.waiting, Accepted(v, cfg, arrivals), r.list.lastID);
    AboveConcat(r.sent, r.list.waiting, r.list.lastID);
    AboveAll(r.sent, r.list.lastID);
    AboveAll(r.list.waiting, r.list.lastID);
  }

  lemma GapIsWaiting(v: Variant, arrivals: seq<Arrival>, r: Outcome)
    requires Exact(Base(v, arrivals) + 1, arrivals, r) && Frontier(v, arrivals) == r.list.lastID
    ensures r.list.waiting != [] <==> Gap(v, arrivals)
    ensures forall m :: m in r.sent ==> m.id <= r.list.lastID
  {
    hide Frontier, Base;
    if r.list.waiting != [] {
      assert r.list.waiting[0] in r.list.waiting;
      assert r.list.waiting[0].id in Received(arrivals);
    }
  }

  /** The list's timestamp is when the gap was opened. */
  lemma {:induction false} SinceIsOpenedAt(v: Variant, cfg: Config, arrivals: seq<Arrival>)
    requires BelowMax(arrivals) && NeverFlushes(v, cfg, arrivals)
    ensures var s := Run(v, cfg, arrivals).list; s.waiting != [] ==> s.since == OpenedAt(v, arrivals)
  {
    if arrivals != [] {
      var front := Front(arrivals);
      if Begun(v, front) {
        SinceIsOpenedAt(v, cfg, front);
        WaitingIsAbove(v, cfg, front);
        WaitingAfterStep(v, cfg, Run(v, cfg, front).list, Last(arrivals));
      } else {
        BeginningLeavesNone(cfg, arrivals);
      }
      hide Step, Gap, Received;
    }
  }

  /** The first message of an endpoint's loop is handed over or, numbered 0, dropped. */
  lemma BeginningLeavesNone(cfg: Config, arrivals: seq<Arrival>)
    requires arrivals != [] && FirstNonzero(Front(arrivals)).None?
    ensures Run(ByEndpoint, cfg, arrivals).list.waiting == []
    ensures NeverFlushes(ByEndpoint, cfg, arrivals)
  {
    NothingBegun(cfg, Front(arrivals));
    NothingBegunIsFit(cfg, Front(arrivals));
  }

  lemma {:induction false} NothingBegunIsFit(cfg: Config, arrivals: seq<Arrival>)
    requires FirstNonzero(arrivals).None?
    ensures NeverFlushes(ByEndpoint, cfg, arrivals)
  {
    if arrivals != [] {
      NothingBegun(cfg, Front(arrivals));
      NothingBegunIsFit(cfg, Front(arrivals));
    }
  }

  // ----- the theorem

  lemma NextIff(v: Variant, cfg: Config, s: List, id: u32)
    requires Inv(v, cfg, s) && s.lastID < MAX_U32 && (v == BySession || s.firstSent)
    ensures !Duplicate(s, id) ==> id > s.lastID && (IsNext(v, s, id) <==> id == s.lastID + 1)
  {
  }

  lemma BegunIsFirstSent(cfg: Config, arrivals: seq<Arrival>)
    requires FirstNonzero(arrivals).Some?
    ensures Run(ByEndpoint, cfg, arrivals).list.firstSent
  {
    EndpointStartsAtFirstNonzero(cfg, arrivals);
    DeliveryIsOrdered(ByEndpoint, cfg, arrivals);
  }

  lemma FrontierIsAboveBase(v: Variant, arrivals: seq<Arrival>)
    ensures Frontier(v, arrivals) >= Base(v, arrivals)
    ensures forall id: int :: Base(v, arrivals) < id <= Frontier(v, arrivals) ==> id in Received(arrivals)
  {
    RunFromEnds(Received(arrivals), Base(v, arrivals));
  }

  /** The latest arrival is filed exactly when it opens or widens the gap. */
  lemma FiledIffOpens(v: Variant, cfg: Config, arrivals: seq<Arrival>)
    requires arrivals != [] && BelowMax(arrivals) && NeverFlushes(v, cfg, Front(arrivals)) && Begun(v, Front(arrivals))
    ensures var s, id := Run(v, cfg, Front(arrivals)).list, Last(arrivals).msg.id;
      OpensOrWidens(v, arrivals) <==> !Duplicate(s, id) && !IsNext(v, s, id)
  {
    var front, id := Front(arrivals), Last(arrivals).msg.id;
    RunKeepsInv(v, cfg, front);
    WaitingIsAbove(v, cfg, front);
    DuplicateIffReceived(v, cfg, front, id);
    FrontierIsAboveBase(v, front);
    if v == ByEndpoint { BegunIsFirstSent(cfg, front); }
    NextIff(v, cfg, Run(v, cfg, front).list, id);
    hide Run, Frontier, Received, NeverFlushes, BelowMax, Inv, Duplicate, IsNext, RunFrom, Gap, Size, Above, Firsts, Base, Begun;
  }

  lemma OverflowsIff(v: Variant, cfg: Config, arrivals: seq<Arrival>)
    requires arrivals != [] && BelowMax(arrivals) && NeverFlushes(v, cfg, Front(arrivals))
    requires OpensOrWidens(v, arrivals)
    ensures Overflows(cfg, File(Run(v, cfg, Front(arrivals)).list, Last(arrivals)), Last(arrivals).checkedAt)
      <==> (Above(Firsts(arrivals), Frontier(v, arrivals)) > cfg.maxSize
            || (OpenedAt(v, arrivals) != 0 && Last(arrivals).checkedAt - OpenedAt(v, arrivals) >= cfg.maxTTL))
  {
    var front, a := Front(arrivals), Last(arrivals);
    var s := Run(v, cfg, front).list;
    WaitingIsAbove(v, cfg, front);
    SinceIsOpenedAt(v, cfg, front);
    FrontierStays(v, arrivals);
    InsertAdds(s.waiting, a.msg);
    AboveConcat(Firsts(front), [a.msg], s.lastID);
    hide Run, Frontier, Received, Gap, Size, Insert, NeverFlushes;
    assert Above([a.msg], s.lastID) == a.msg.length;
  }

  lemma FrontierStays(v: Variant, arrivals: seq<Arrival>)
    requires BelowMax(arrivals) && OpensOrWidens(v, arrivals)
    ensures Frontier(v, arrivals) == Frontier(v, Front(arrivals))
  {
    ReceivedMore(arrivals);
    BaseStays(v, arrivals);
    var front := Front(arrivals);
    RunFromEnds(Received(front), Base(v, front));
    FrontierIs(v, arrivals, Frontier(v, front));
  }

  /** A list never flushes exactly when every gap fits: a condition on what arrived and
      when, however long the run, with no mention of the list. */
  lemma {:induction false} NeverFlushesIff(v: Variant, cfg: Config, arrivals: seq<Arrival>)
    requires BelowMax(arrivals)
    ensures NeverFlushes(v, cfg, arrivals) <==> GapsFit(v, cfg, arrivals)
  {
    if arrivals != [] {
      NeverFlushesIff(v, cfg, Front(arrivals));
      if !Begun(v, Front(arrivals)) {
        BeginningLeavesNone(cfg, arrivals);
      } else if NeverFlushes(v, cfg, Front(arrivals)) {
        FiledIffOpens(v, cfg, arrivals);
        if OpensOrWidens(v, arrivals) { OverflowsIff(v, cfg, arrivals); }
      }
    }
  }

  // ----- how a flush comes about

  lemma {:induction false} SentStays(v: Variant, cfg: Config, one: seq<Arrival>, two: seq<Arrival>)
    ensures Run(v, cfg, one).sent <= Run(v, cfg, one + two).sent
  {
    if two == [] {
      assert one + two == one;
    } else {
      assert Front(one + two) == one + Front(two);
      SentStays(v, cfg, one, Front(two));
    }
  }

  /** A message that comes first, is not number 1 and is longer than the limit is handed
      over at once, and whatever comes after, number 1 no longer is. */
  lemma LongHeadIsGivenUp(cfg: Config, a: Arrival, rest: seq<Arrival>)
    requires 1 < a.msg.id < MAX_U32 && a.msg.length > cfg.maxSize && BelowMax(rest)
    ensures var sent := Run(BySession, cfg, [a] + rest).sent; sent != [] && sent[0] == a.msg
    ensures !GapsFit(BySession, cfg, [a] + rest)
  {
    var one := [a];
    assert Front(one) == [] && Last(one) == a;
    assert File(EMPTY, a).waiting == [a.msg] && Size([a.msg]) == a.msg.length;
    assert Run(BySession, cfg, one).sent == [a.msg];
    SentStays(BySession, cfg, one, rest);
    NeverFlushesIffNoHole(cfg, one + rest);
    NeverFlushesIff(BySession, cfg, one + rest);
  }

  function Numbered(id: u32, length: u16, pushedAt: int, checkedAt: int): Arrival {
    Arrival(Message(id, 0, length, []), pushedAt, checkedAt)
  }

  /** Number 3 waits, and number 2 is looked at when the time limit has passed: both are
      handed over, although both fit, and number 1 is given up. */
  lemma OldGapIsGivenUp(cfg: Config, length: u16, pushedAt: int, checkedAt: int)
    requires length <= cfg.maxSize && 0 < cfg.maxTTL && pushedAt != 0 && checkedAt - pushedAt >= cfg.maxTTL
    ensures var three, two := Numbered(3, length, pushedAt, pushedAt), Numbered(2, 0, checkedAt, checkedAt);
      Run(BySession, cfg, [three, two]).sent == [two.msg, three.msg]
  {
    var three, two := Numbered(3, length, pushedAt, pushedAt), Numbered(2, 0, checkedAt, checkedAt);
    var one, both := [three], [three, two];
    assert Front(one) == [] && Last(one) == three && Front(both) == one && Last(both) == two;
    assert File(EMPTY, three) == List(0, false, [three.msg], pushedAt) && Size([three.msg]) == length;
    assert Run(BySession, cfg, one) == Outcome(List(0, false, [three.msg], pushedAt), []);
    assert File(List(0, false, [three.msg], pushedAt), two).waiting == [two.msg, three.msg];
  }
}
