/**
 The stream merger as it runs: the waiting list that is edited in place and the
 receive loops that drive it. Everything here is proved against module Reorder.
 */
module Merger {
  import opened Bytes
  import opened Reorder

  /** Where delivered messages go; every list of a stream hands over to the same one. */
  class Receiver {
    var out: seq<Message>

    constructor ()
      ensures out == []
    {
      out := [];
    }
  }

  function Ids(w: seq<Message>): set<u32> {
    set m | m in w :: m.id
  }

  lemma {:induction false} InsertAt(w: seq<Message>, m: Message, i: nat)
    requires i <= |w|
    requires forall k :: 0 <= k < i ==> w[k].id <= m.id
    requires i < |w| ==> m.id < w[i].id
    ensures Insert(w, m) == w[..i] + [m] + w[i..]
  {
    if i == 0 {
      assert w[..0] + [m] + w[0..] == [m] + w;
    } else {
      InsertAt(w[1..], m, i - 1);
      assert [w[0]] + w[1..][..i - 1] == w[..i];
      assert w[1..][i - 1..] == w[i..];
    }
  }

  /** The list after `m` was filed keeps sorted, and its ID set and size follow. */
  lemma FilingIsValid(w: seq<Message>, m: Message)
    requires Sorted(w)
    ensures Size(Insert(w, m)) == Size(w) + m.length && Ids(Insert(w, m)) == Ids(w) + {m.id}
    ensures !Has(w, m.id) ==> Sorted(Insert(w, m)) && (w == [] || Last(w).id != m.id)
  {
    InsertAdds(w, m);
    if !Has(w, m.id) {
      InsertIsOrdered(w, m);
    }
  }

  lemma RemovingHead(w: seq<Message>, i: nat)
    requires i < |w| && Sorted(w)
    ensures Ids(w[i..]) - {w[i].id} == Ids(w[i + 1..])
    ensures Size(w[i..]) == w[i].length + Size(w[i + 1..])
    ensures w[..i + 1] == w[..i] + [w[i]]
  {
    assert w[i..] == [w[i]] + w[i + 1..];
    assert forall m :: m in w[i + 1..] ==> m.id != w[i].id;
  }

  lemma DrainLeavesValid(w: seq<Message>)
    requires Sorted(w)
    ensures Size([]) == 0 && Ids([]) == {}
    ensures forall n: nat :: n <= |w| ==> Sorted(w[n..])
  {
  }

  /** Where `id` is filed: after the end, before the start, or, inside the list, at
      the first rise of a wrapping subtraction. There is no place exactly when the
      largest waiting ID is `id` itself. */
  method FindPosition(w: seq<Message>, id: u32) returns (pos: Option<nat>)
    requires Sorted(w)
    ensures pos.None? <==> w != [] && id == Last(w).id
    ensures pos.Some? ==>
      && pos.value <= |w|
      && (forall k :: 0 <= k < pos.value ==> w[k].id <= id)
      && (pos.value < |w| ==> id < w[pos.value].id)
  {
    var length := |w|;
    if length > 0 {
      if w[length - 1].id < id {
        return Some(length);
      }
      if w[0].id > id {
        return Some(0);
      }
      var lastMinID: u32 := MAX_U32;
      for i := 0 to length
        invariant forall k :: 0 <= k < i ==> w[k].id <= id
        invariant lastMinID == if i == 0 then MAX_U32 else id - w[i - 1].id
      {
        var minID := Sub32(id, w[i].id);
        if minID > lastMinID {
          return Some(i);
        }
        lastMinID := minID;
      }
      return None;
    }
    return Some(0);
  }

  lemma IdsAreHas(w: seq<Message>)
    ensures forall id: u32 :: id in Ids(w) <==> Has(w, id)
  {
    forall id: u32 | id in Ids(w) ensures Has(w, id) {
      var m :| m in w && m.id == id;
    }
  }

  predicate HeadIsDue(s: List) {
    s.waiting != [] && (s.waiting[0].id == Inc32(s.lastID) || s.waiting[0].id == 0)
  }

  /** What popping does: nothing, or `req` and then the run at the front are sent. */
  function Popped(s: List, req: Option<Message>): Outcome {
    if !HeadIsDue(s) then Outcome(s, [])
    else
      var n := 1 + RunLength(s.waiting[1..], s.waiting[0].id);
      Outcome(List(s.waiting[n - 1].id, true, s.waiting[n..], if n == |s.waiting| then 0 else s.since),
              (if req.Some? then [req.value] else []) + s.waiting[..n])
  }

  /** Sending the next message and popping the list is the delivery of module Reorder. */
  lemma DeliverIsSendAndPop(s: List, m: Message)
    requires !Has(s.waiting, 0)
    ensures var popped := Popped(List(m.id, true, s.waiting, s.since), None);
      Deliver(s, m) == Outcome(popped.list, [m] + popped.sent)
  {
  }

  /** Where the contiguous run that passes index `i` ends. */
  function RunEnd(w: seq<Message>, i: nat): nat
    requires i < |w|
  {
    i + 1 + RunLength(w[i + 1..], w[i].id)
  }

  lemma RunContinues(w: seq<Message>, i: nat)
    requires i < |w|
    ensures i < RunEnd(w, i) <= |w|
    ensures RunEnd(w, i) == if i + 1 < |w| && w[i + 1].id == Inc32(w[i].id) then RunEnd(w, i + 1) else i + 1
  {
    if i + 1 < |w| { assert w[i + 1..][1..] == w[i + 2..]; }
  }

  class WaitingList {
    var lastID: u32
    var firstSent: bool
    var data: seq<Message>
    var dataSize: int
    var firstMessageTs: int
    var idsMap: set<u32>
    const sender: Receiver
    ghost const endpoint: u64  // the endpoint the list was made for

    constructor (sender: Receiver, ghost endpoint: u64)
      ensures Valid() && Value() == EMPTY && this.sender == sender && this.endpoint == endpoint
    {
      this.endpoint := endpoint;
      lastID, firstSent, data, dataSize, firstMessageTs, idsMap := 0, false, [], 0, 0, {};
      this.sender := sender;
    }

    ghost predicate Valid()
      reads this
    {
      Sorted(data) && dataSize == Size(data) && idsMap == Ids(data)
    }

    function Value(): List
      reads this
    {
      List(lastID, firstSent, data, firstMessageTs)
    }

    method Send(req: Message)
      modifies this`lastID, this`firstSent, sender
      ensures lastID == req.id && firstSent
      ensures sender.out == old(sender.out) + [req]
    {
      sender.out := sender.out + [req];
      lastID := req.id;
      firstSent := true;
    }

    /** Files `req` in ID order. It fails exactly when the largest waiting ID is
        `req`'s own, and has then already counted the payload. */
    method Push(req: Message, now: int) returns (ok: bool)
      requires Valid()
      modifies this
      ensures ok <==> (old(data) == [] || Last(old(data)).id != req.id)
      ensures data == if ok then Insert(old(data), req) else old(data)
      ensures idsMap == if ok then old(idsMap) + {req.id} else old(idsMap)
      ensures dataSize == old(dataSize) + req.length
      ensures firstMessageTs == if old(data) == [] then now else old(firstMessageTs)
      ensures lastID == old(lastID) && firstSent == old(firstSent)
      ensures !Has(old(data), req.id) ==> ok && Valid()
    {
      hide Sorted, Size, Ids, Has, Insert;
      FilingIsValid(data, req);
      dataSize := dataSize + req.length;
      var pos := FindPosition(data, req.id);
      if pos.None? {
        return false;
      }
      InsertAt(data, req, pos.value);
      if data == [] {
        firstMessageTs := now;
      }
      data := data[..pos.value] + [req] + data[pos.value..];
      idsMap := idsMap + {req.id};
      return true;
    }

    /** The draining loop of Pop: sends, from the front, until the numbering breaks. */
    method Drain() returns (i: nat)
      requires Valid() && data != []
      modifies this`lastID, this`firstSent, this`dataSize, this`idsMap, sender
      ensures var n := RunEnd(data, 0);
        && n <= |data| && i == (if n == |data| then n else n - 1)
        && lastID == data[n - 1].id && firstSent
        && idsMap == Ids(data[n..]) && dataSize == Size(data[n..])
        && sender.out == old(sender.out) + data[..n]
    {
      var length := |data|;
      ghost var out := sender.out;
      assert data[0..] == data && out + data[..0] == out;
      hide Sorted, Size, Ids, RunEnd;
      i := 0;
      while i < length
        invariant i <= length
        invariant i == length ==> RunEnd(data, 0) == length && lastID == data[i - 1].id && firstSent
        invariant i < length ==> RunEnd(data, i) == RunEnd(data, 0)
        invariant idsMap == Ids(data[i..]) && dataSize == Size(data[i..])
        invariant sender.out == out + data[..i]
      {
        RemovingHead(data, i);
        RunContinues(data, i);
        ConcatIsAssociative(out, data[..i], [data[i]]);
        Send(data[i]);
        idsMap := idsMap - {data[i].id};
        dataSize := dataSize - data[i].length;
        if i + 1 < length && data[i + 1].id != Inc32(lastID) {
          break;
        }
        i := i + 1;
      }
    }

    /** When the head is due, sends `req` and the contiguous run at the front. */
    method Pop(req: Option<Message>) returns (more: bool)
      requires Valid()
      modifies this, sender
      ensures Valid()
      ensures more <==> !HeadIsDue(old(Value()))
      ensures Value() == Popped(old(Value()), req).list
      ensures sender.out == old(sender.out) + Popped(old(Value()), req).sent
    {
      hide Sorted, Size, Ids, RunLength;
      DrainLeavesValid(data);
      var length := |data|;
      ghost var out := sender.out;
      if length > 0 && (data[0].id == Inc32(lastID) || data[0].id == 0) {
        if req.Some? {
          Send(req.value);
        }
        var i := Drain();
        if i == length {
          assert data[length..] == [];
          data := [];
          firstMessageTs := 0;
        } else {
          assert Sorted(data[i + 1..]);
          data := data[i + 1..];
        }
        return false;
      }
      return true;
    }

    /** Gives up waiting: sends everything in order. The timestamp stays as it was. */
    method Reset()
      modifies this, sender
      ensures Valid()
      ensures Value() == Flush(old(Value())).list
      ensures sender.out == old(sender.out) + old(data)
    {
      for i := 0 to |data|
        invariant data == old(data) && firstMessageTs == old(firstMessageTs)
        invariant sender.out == old(sender.out) + data[..i]
        invariant if i == 0 then lastID == old(lastID) && firstSent == old(firstSent)
                  else lastID == data[i - 1].id && firstSent
      {
        Send(data[i]);
      }
      data := [];
      idsMap := {};
      dataSize := 0;
    }
  }

  /** Between messages the head of the list is never due. */
  lemma InvMeansNotDue(v: Variant, cfg: Config, s: List)
    requires Inv(v, cfg, s)
    ensures !Has(s.waiting, 0) && !HeadIsDue(s)
  {
  }

  method DeliverNext(wl: WaitingList, req: Message)
    requires wl.Valid() && !Has(wl.data, 0)
    modifies wl, wl.sender
    ensures wl.Valid()
    ensures wl.Value() == Deliver(old(wl.Value()), req).list
    ensures wl.sender.out == old(wl.sender.out) + Deliver(old(wl.Value()), req).sent
  {
    ghost var s, out := wl.Value(), wl.sender.out;
    ghost var popped := Popped(List(req.id, true, s.waiting, s.since), None);
    DeliverIsSendAndPop(s, req);
    ConcatIsAssociative(out, [req], popped.sent);
    hide Sorted, Size, Ids, Has, Deliver, Popped;
    wl.Send(req);
    var _ := wl.Pop(None);
  }

  method FileOrFlush(cfg: Config, wl: WaitingList, a: Arrival) returns (fatal: bool)
    requires wl.Valid() && !Has(wl.data, a.msg.id)
    modifies wl, wl.sender
    ensures !fatal && wl.Valid()
    ensures var filed := File(old(wl.Value()), a);
      var r := if Overflows(cfg, filed, a.checkedAt) then Flush(filed) else Outcome(filed, []);
      wl.Value() == r.list && wl.sender.out == old(wl.sender.out) + r.sent
  {
    hide Sorted, Size, Ids, Insert, Has;
    var ok := wl.Push(a.msg, a.pushedAt);
    fatal := !ok;
    var size, ts := wl.dataSize, wl.firstMessageTs;
    if size > cfg.maxSize || (ts != 0 && a.checkedAt - ts >= cfg.maxTTL) {
      wl.Reset();
    }
  }

  /** What either stream loop does with one message, with every branch it has. On a
      list that satisfies the invariant it computes Reorder.Step: the message that
      would pop the list is never taken for one, and filing never fails. */
  method Accept(v: Variant, cfg: Config, wl: WaitingList, a: Arrival) returns (fatal: bool)
    requires wl.Valid() && Inv(v, cfg, wl.Value())
    modifies wl, wl.sender
    ensures !fatal
    ensures wl.Valid() && Inv(v, cfg, wl.Value())
    ensures wl.Value() == Step(v, cfg, old(wl.Value()), a).list
    ensures wl.sender.out == old(wl.sender.out) + Step(v, cfg, old(wl.Value()), a).sent
  {
    var req := a.msg;
    fatal := false;
    assert wl.sender.out + [] == wl.sender.out;
    StepKeepsInv(v, cfg, wl.Value(), a);
    IdsAreHas(wl.data);
    InvMeansNotDue(v, cfg, wl.Value());
    hide Sorted, Size, Ids, Has, Inv, Deliver, File, Flush, Overflows, HeadIsDue;
    if (wl.lastID >= req.id && wl.lastID < MAX_U32) || req.id in wl.idsMap {
      return;
    }
    assert !Duplicate(wl.Value(), req.id);
    hide Duplicate;
    var more := wl.Pop(Some(req));
    if !more {
      return;
    }
    if (wl.firstSent && (Inc32(wl.lastID) == req.id || req.id == 0))
       || (!wl.firstSent && (v == ByEndpoint || req.id == 1))
    {
      DeliverNext(wl, req);
      return;
    }
    fatal := FileOrFlush(cfg, wl, a);
  }
}
