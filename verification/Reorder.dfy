/**
 What the stream merger promises, on values: one reordering list, its step for
 each arriving message, and whole runs of steps.

 The step below has none of the branches that the code proves dead: it drops
 duplicates, delivers the next message together with the contiguous run it
 completes, or files the message in order and flushes on overflow. The classes in
 module Merger, which keep the code's branches, are proved to compute it.
 */
module Reorder {
  import opened Bytes

  datatype Message = Message(id: u32, endpoint: u64, length: u16, payload: bytes)

  datatype Config = Config(maxSize: int, maxTTL: int)

  /** Which stream loop drives the list: the one per session demands that a
      list starts at ID 1, the one per endpoint starts anywhere. */
  datatype Variant = BySession | ByEndpoint

  /** A message with the two clock readings its handling may take. */
  datatype Arrival = Arrival(msg: Message, pushedAt: int, checkedAt: int)

  datatype List = List(lastID: u32, firstSent: bool, waiting: seq<Message>, since: int)

  const EMPTY: List := List(0, false, [], 0)

  datatype Outcome = Outcome(list: List, sent: seq<Message>)

  // ----- vocabulary

  ghost predicate Has(w: seq<Message>, id: u32) {
    exists i :: 0 <= i < |w| && w[i].id == id
  }

  ghost predicate Sorted(w: seq<Message>) {
    forall i, j :: 0 <= i < j < |w| ==> w[i].id < w[j].id
  }

  function Size(w: seq<Message>): (n: nat) {
    if w == [] then 0 else w[0].length + Size(w[1..])
  }

  function Insert(w: seq<Message>, m: Message): seq<Message> {
    if w == [] || m.id < w[0].id then [m] + w else [w[0]] + Insert(w[1..], m)
  }

  /** How many messages at the front of `w` continue the numbering after `last`. */
  function RunLength(w: seq<Message>, last: u32): (n: nat)
    ensures n <= |w|
  {
    if w == [] || w[0].id != Inc32(last) then 0 else 1 + RunLength(w[1..], w[0].id)
  }

  // ----- one step

  ghost predicate Duplicate(s: List, id: u32) {
    (s.lastID >= id && s.lastID < MAX_U32) || Has(s.waiting, id)
  }

  predicate IsNext(v: Variant, s: List, id: u32) {
    if s.firstSent then id == Inc32(s.lastID) || id == 0 else v == ByEndpoint || id == 1
  }

  function Deliver(s: List, m: Message): Outcome {
    var n := RunLength(s.waiting, m.id);
    var sent := [m] + s.waiting[..n];
    Outcome(List(sent[n].id, true, s.waiting[n..], if 0 < n == |s.waiting| then 0 else s.since), sent)
  }

  /** The list after filing `m`, before the overflow check. */
  function File(s: List, a: Arrival): List {
    s.(waiting := Insert(s.waiting, a.msg), since := if s.waiting == [] then a.pushedAt else s.since)
  }

  predicate Overflows(cfg: Config, s: List, checkedAt: int) {
    Size(s.waiting) > cfg.maxSize || (s.since != 0 && checkedAt - s.since >= cfg.maxTTL)
  }

  function Flush(s: List): Outcome {
    if s.waiting == [] then Outcome(s, [])
    else Outcome(List(s.waiting[|s.waiting| - 1].id, true, [], s.since), s.waiting)
  }

  ghost function Step(v: Variant, cfg: Config, s: List, a: Arrival): Outcome {
    if Duplicate(s, a.msg.id) then Outcome(s, [])
    else if IsNext(v, s, a.msg.id) then Deliver(s, a.msg)
    else
      var filed := File(s, a);
      if Overflows(cfg, filed, a.checkedAt) then Flush(filed) else Outcome(filed, [])
  }

  ghost function Run(v: Variant, cfg: Config, arrivals: seq<Arrival>): Outcome {
    if arrivals == [] then Outcome(EMPTY, [])
    else
      var before := Run(v, cfg, Front(arrivals));
      var step := Step(v, cfg, before.list, Last(arrivals));
      Outcome(step.list, before.sent + step.sent)
  }

  function Front<T>(s: seq<T>): seq<T>
    requires s != []
  {
    s[..|s| - 1]
  }

  function Last<T>(s: seq<T>): T
    requires s != []
  {
    s[|s| - 1]
  }

  // ----- facts about the vocabulary

  lemma {:induction false} InsertAdds(w: seq<Message>, m: Message)
    ensures multiset(Insert(w, m)) == multiset(w) + multiset{m}
    ensures Size(Insert(w, m)) == Size(w) + m.length
    ensures forall x :: x in Insert(w, m) <==> x in w || x == m
  {
    if w == [] || m.id < w[0].id {
      assert ([m] + w)[1..] == w;
    } else {
      assert w == [w[0]] + w[1..];
      InsertAdds(w[1..], m);
      assert ([w[0]] + Insert(w[1..], m))[1..] == Insert(w[1..], m);
    }
  }

  lemma ConsIsOrdered(m: Message, w: seq<Message>)
    requires Sorted(w) && forall x :: x in w ==> m.id < x.id
    ensures Sorted([m] + w)
  {
  }

  lemma {:induction false} InsertIsOrdered(w: seq<Message>, m: Message)
    requires Sorted(w) && !Has(w, m.id)
    ensures Sorted(Insert(w, m))
  {
    if w == [] || m.id < w[0].id {
      ConsIsOrdered(m, w);
    } else {
      var rest := w[1..];
      assert w[0].id != m.id;
      assert forall i :: 0 <= i < |rest| ==> rest[i] == w[i + 1];
      InsertIsOrdered(rest, m);
      InsertAdds(rest, m);
      ConsIsOrdered(w[0], Insert(rest, m));
    }
  }

  lemma {:induction false} RunIsContiguous(w: seq<Message>, last: u32)
    requires Sorted(w) && !Has(w, 0)
    ensures var n := RunLength(w, last);
      && (forall i :: 0 <= i < n ==> w[i].id == last + 1 + i)
      && (n < |w| ==> w[n].id != Inc32(if n == 0 then last else w[n - 1].id))
  {
    if w != [] && w[0].id == Inc32(last) {
      var rest := w[1..];
      assert forall i :: 0 <= i < |rest| ==> rest[i] == w[i + 1];
      RunIsContiguous(rest, w[0].id);
      assert w[0].id == last + 1;
      var n := RunLength(rest, w[0].id);
      forall i | 0 <= i < n + 1 ensures w[i].id == last + 1 + i {
        if i > 0 { assert rest[i - 1].id == w[0].id + 1 + (i - 1); }
      }
    }
  }

  lemma {:induction false} SizeConcat(a: seq<Message>, b: seq<Message>)
    ensures Size(a + b) == Size(a) + Size(b)
  {
    if a == [] {
      assert a + b == b;
    } else {
      assert (a + b)[1..] == a[1..] + b;
      SizeConcat(a[1..], b);
    }
  }

  // ----- the state invariant, over the whole 32-bit domain

  /** Holds between messages. Everything waiting is nonzero, is not the next ID,
      and lies above the last one sent unless that one was the largest ID. */
  ghost predicate Inv(v: Variant, cfg: Config, s: List) {
    && Sorted(s.waiting)
    && !Has(s.waiting, 0)
    && !Has(s.waiting, Inc32(s.lastID))
    && (s.lastID < MAX_U32 ==> forall i :: 0 <= i < |s.waiting| ==> s.lastID < s.waiting[i].id)
    && (!s.firstSent ==> s.lastID == 0)
    && (!s.firstSent && v == ByEndpoint ==> s.waiting == [])
    && (s.waiting != [] ==> Size(s.waiting) <= cfg.maxSize)
  }

  /** What a delivery leaves waiting is a suffix, above everything it sent. */
  lemma DeliverSplits(s: List, m: Message)
    requires Sorted(s.waiting)
    requires forall i :: 0 <= i < |s.waiting| ==> m.id < s.waiting[i].id
    ensures var n := RunLength(s.waiting, m.id); var next := Deliver(s, m).list;
      && next.lastID == m.id + n
      && next.waiting == s.waiting[n..]
      && (next.lastID < MAX_U32 ==> forall i :: n <= i < |s.waiting| ==> s.waiting[i].id > next.lastID + 1)
  {
    var w, n := s.waiting, RunLength(s.waiting, m.id);
    RunIsContiguous(w, m.id);
    var next := Deliver(s, m).list;
    assert n > 0 ==> next.lastID == w[n - 1].id;
    if next.lastID < MAX_U32 {
      forall i | n <= i < |w| ensures w[i].id > next.lastID + 1 {
        if n > 0 { assert w[n - 1].id < w[n].id; }
        if i > n { assert w[n].id < w[i].id; }
      }
    }
  }

  lemma NextIsBelowWaiting(v: Variant, cfg: Config, s: List, id: u32)
    requires Inv(v, cfg, s) && !Duplicate(s, id) && IsNext(v, s, id)
    ensures forall i :: 0 <= i < |s.waiting| ==> id < s.waiting[i].id
    ensures s.firstSent ==> id == Inc32(s.lastID)
  {
    forall i | 0 <= i < |s.waiting| ensures id < s.waiting[i].id {
      assert Has(s.waiting, s.waiting[i].id);
    }
  }

  lemma SuffixIsOrdered(w: seq<Message>, n: nat)
    requires n <= |w| && Sorted(w)
    ensures Sorted(w[n..]) && Size(w[n..]) <= Size(w)
  {
    assert w == w[..n] + w[n..];
    SizeConcat(w[..n], w[n..]);
  }

  lemma DeliverKeepsInv(v: Variant, cfg: Config, s: List, m: Message)
    requires Inv(v, cfg, s) && !Duplicate(s, m.id) && IsNext(v, s, m.id)
    ensures Inv(v, cfg, Deliver(s, m).list)
  {
    NextIsBelowWaiting(v, cfg, s, m.id);
    DeliverSplits(s, m);
    SuffixIsOrdered(s.waiting, RunLength(s.waiting, m.id));
  }

  lemma FileKeepsInv(v: Variant, cfg: Config, s: List, a: Arrival)
    requires Inv(v, cfg, s) && !Duplicate(s, a.msg.id) && !IsNext(v, s, a.msg.id)
    ensures var filed := File(s, a);
      && filed.waiting != []
      && (Size(filed.waiting) <= cfg.maxSize ==> Inv(v, cfg, filed))
      && Sorted(filed.waiting) && !Has(filed.waiting, 0)
  {
    InsertIsOrdered(s.waiting, a.msg);
    InsertAdds(s.waiting, a.msg);
    var w := File(s, a).waiting;
    assert a.msg.id != 0;
    forall i | 0 <= i < |w|
      ensures w[i].id != 0 && w[i].id != Inc32(s.lastID) && (s.lastID < MAX_U32 ==> s.lastID < w[i].id)
    {
      assert w[i] in w;
    }
  }

  lemma StepKeepsInv(v: Variant, cfg: Config, s: List, a: Arrival)
    requires Inv(v, cfg, s)
    ensures Inv(v, cfg, Step(v, cfg, s, a).list)
  {
    if !Duplicate(s, a.msg.id) {
      if IsNext(v, s, a.msg.id) {
        DeliverKeepsInv(v, cfg, s, a.msg);
      } else {
        FileKeepsInv(v, cfg, s, a);
      }
    }
  }

  lemma {:induction false} RunKeepsInv(v: Variant, cfg: Config, arrivals: seq<Arrival>)
    ensures Inv(v, cfg, Run(v, cfg, arrivals).list)
  {
    if arrivals != [] {
      RunKeepsInv(v, cfg, Front(arrivals));
      StepKeepsInv(v, cfg, Run(v, cfg, Front(arrivals)).list, Last(arrivals));
    }
  }
}
