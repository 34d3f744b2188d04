/**
 The two receive loops of the merger: one per session, over a table of waiting
 lists, and one per session and endpoint, over a single list.
 */
module StreamLoops {
  import opened Bytes
  import opened Reorder
  import opened Streams
  import opened Merger

  class SessionStream {
    const cfg: Config
    const receiver: Receiver
    var wlMap: map<u64, WaitingList>
    ghost var lists: map<u64, List>  // the value of every list in the table

    constructor (cfg: Config, receiver: Receiver)
      ensures Valid() && lists == map[] && wlMap == map[] && this.cfg == cfg && this.receiver == receiver
    {
      this.cfg := cfg;
      this.receiver := receiver;
      wlMap, lists := map[], map[];
    }

    ghost predicate Owns(e: u64)
      requires e in wlMap && e in lists
      reads this, wlMap[e]
    {
      && wlMap[e].endpoint == e && wlMap[e].sender == receiver
      && wlMap[e].Valid() && wlMap[e].Value() == lists[e] && Inv(BySession, cfg, lists[e])
    }

    ghost predicate Valid()
      reads this, wlMap.Values
    {
      lists.Keys == wlMap.Keys && forall e :: e in wlMap ==> Owns(e)
    }

    method GetWaitingList(endpoint: u64) returns (wl: WaitingList)
      requires Valid()
      modifies this
      ensures Valid() && endpoint in wlMap && wlMap[endpoint] == wl
      ensures endpoint in old(wlMap) ==> wlMap == old(wlMap) && lists == old(lists)
      ensures endpoint !in old(wlMap) ==>
        fresh(wl) && wlMap == old(wlMap)[endpoint := wl] && lists == old(lists)[endpoint := EMPTY]
    {
      hide WaitingList.Valid, WaitingList.Value;
      if endpoint in wlMap {
        return wlMap[endpoint];
      }
      wl := new WaitingList(receiver, endpoint);
      wlMap, lists := wlMap[endpoint := wl], lists[endpoint := EMPTY];
      assert Valid() by {
        forall e | e in wlMap ensures Owns(e) {
          if e != endpoint { assert old(Owns(e)); }
        }
      }
    }

    method Handle(a: Arrival) returns (fatal: bool)
      requires Valid()
      modifies this, wlMap.Values, receiver
      ensures Valid() && !fatal
      ensures fresh(wlMap.Values - old(wlMap.Values))
      ensures Stream(lists, receiver.out) == StreamStep(cfg, Stream(old(lists), old(receiver.out)), a)
    {
      UpdateTwice(lists, a.msg.endpoint, EMPTY, Step(BySession, cfg, ListOf(lists, a.msg.endpoint), a).list);
      hide Inv, WaitingList.Valid, WaitingList.Value, Step;
      var wl := GetWaitingList(a.msg.endpoint);
      assert Owns(a.msg.endpoint);
      fatal := Accept(BySession, cfg, wl, a);
      lists := lists[a.msg.endpoint := wl.Value()];
      assert Valid() by {
        forall e | e in wlMap ensures Owns(e) {
          if e != a.msg.endpoint { assert old(Owns(e)); }
        }
      }
    }
  }

  lemma StreamRunAppend(cfg: Config, arrivals: seq<Arrival>, a: Arrival)
    ensures StreamRun(cfg, arrivals + [a]) == StreamStep(cfg, StreamRun(cfg, arrivals), a)
  {
    assert Front(arrivals + [a]) == arrivals;
  }

  /** The loop of one session: it handles messages until it is told to stop. */
  method StreamSession(cfg: Config, receiver: Receiver, ch: seq<Option<Arrival>>) returns (fatal: bool)
    requires receiver.out == []
    modifies receiver
    ensures !fatal
    ensures receiver.out == StreamRun(cfg, UpToNone(ch)).sent
  {
    var stream := new SessionStream(cfg, receiver);
    ghost var done: seq<Arrival> := [];
    assert ch[0..] == ch;
    fatal := false;
    for i := 0 to |ch|
      invariant stream.Valid() && stream.cfg == cfg && stream.receiver == receiver
      invariant fresh(stream) && fresh(stream.wlMap.Values)
      invariant done + UpToNone(ch[i..]) == UpToNone(ch)
      invariant Stream(stream.lists, receiver.out) == StreamRun(cfg, done)
      invariant !fatal
    {
      if ch[i].None? {
        assert done + [] == done;
        return;
      }
      TakeNext(done, ch, i);
      StreamRunAppend(cfg, done, ch[i].value);
      hide StreamRun, StreamStep, SessionStream.Valid, UpToNone;
      fatal := stream.Handle(ch[i].value);
      done := done + [ch[i].value];
    }
    assert done + [] == done;
  }

  /** What the loop of one session and endpoint can wake up to: the stream checker, the
      end of its session, or a message, perhaps of another session. */
  datatype Event = Check(now: int) | Cancelled | Incoming(sessionID: u32, arrival: Arrival, now: int)

  /** The messages of this session and endpoint that come before the session ends or the
      loop has been idle for `ttl` at a check. `last` is when the latest one came. */
  ghost function Taken(events: seq<Event>, sessionID: u32, endpoint: u64, ttl: int, last: Option<int>): seq<Arrival> {
    if events == [] then []
    else
      match events[0]
      case Check(now) =>
        if last.None? || now - last.value >= ttl then [] else Taken(events[1..], sessionID, endpoint, ttl, last)
      case Cancelled => []
      case Incoming(sid, a, now) =>
        if sid != sessionID || a.msg.endpoint != endpoint then Taken(events[1..], sessionID, endpoint, ttl, last)
        else [a] + Taken(events[1..], sessionID, endpoint, ttl, Some(now))
  }

  // ----- where the loop of an endpoint stops, said of its events alone

  /** The `i`-th event is a message of this session and endpoint. */
  predicate OwnAt(events: seq<Event>, sessionID: u32, endpoint: u64, i: nat) {
    i < |events| && events[i].Incoming? && events[i].sessionID == sessionID && events[i].arrival.msg.endpoint == endpoint
  }

  /** The messages of this session and endpoint, in order. */
  function Own(events: seq<Event>, sessionID: u32, endpoint: u64): seq<Arrival> {
    if events == [] then []
    else
      var n := |events| - 1;
      Own(events[..n], sessionID, endpoint) + (if OwnAt(events, sessionID, endpoint, n) then [events[n].arrival] else [])
  }

  /** Of the messages of this session and endpoint, the `j`-th event is the latest before the `i`-th. */
  ghost predicate LatestOwn(events: seq<Event>, sessionID: u32, endpoint: u64, j: nat, i: nat) {
    j < i <= |events| && OwnAt(events, sessionID, endpoint, j) && forall k: nat :: j < k < i ==> !OwnAt(events, sessionID, endpoint, k)
  }

  /** The `i`-th event is the end of the session, or a check before any message or `ttl`
      or more after the latest one. */
  ghost predicate StopsAt(events: seq<Event>, sessionID: u32, endpoint: u64, ttl: int, i: nat) {
    && i < |events|
    && (events[i].Cancelled?
        || (events[i].Check? && forall j: nat :: LatestOwn(events, sessionID, endpoint, j, i) ==> events[i].now - events[j].now >= ttl))
  }

  /** The loop runs through `n` events: it stops at the next one, or there is none. */
  ghost predicate RunsThrough(events: seq<Event>, sessionID: u32, endpoint: u64, ttl: int, n: nat) {
    && n <= |events|
    && (forall i: nat :: i < n ==> !StopsAt(events, sessionID, endpoint, ttl, i))
    && (n < |events| ==> StopsAt(events, sessionID, endpoint, ttl, n))
  }

  /** `last` is when the latest message before the `i`-th event came. */
  ghost predicate LastIs(events: seq<Event>, sessionID: u32, endpoint: u64, i: nat, last: Option<int>) {
    && i <= |events|
    && (last.None? ==> forall k: nat :: k < i ==> !OwnAt(events, sessionID, endpoint, k))
    && (last.Some? ==> exists j: nat :: LatestOwn(events, sessionID, endpoint, j, i) && events[j].now == last.value)
  }

  lemma LatestIsUnique(events: seq<Event>, sessionID: u32, endpoint: u64, j: nat, k: nat, i: nat)
    requires LatestOwn(events, sessionID, endpoint, j, i) && LatestOwn(events, sessionID, endpoint, k, i)
    ensures j == k
  {
  }

  lemma CheckStopsIff(events: seq<Event>, sessionID: u32, endpoint: u64, ttl: int, i: nat, last: Option<int>)
    requires i < |events| && events[i].Check? && LastIs(events, sessionID, endpoint, i, last)
    ensures StopsAt(events, sessionID, endpoint, ttl, i) <==> last.None? || events[i].now - last.value >= ttl
  {
    if last.Some? {
      var j: nat :| LatestOwn(events, sessionID, endpoint, j, i) && events[j].now == last.value;
      forall k: nat | LatestOwn(events, sessionID, endpoint, k, i) ensures k == j { LatestIsUnique(events, sessionID, endpoint, j, k, i); }
    }
  }

  lemma LastMovesOn(events: seq<Event>, sessionID: u32, endpoint: u64, i: nat, last: Option<int>)
    requires i < |events| && LastIs(events, sessionID, endpoint, i, last)
    ensures LastIs(events, sessionID, endpoint, i + 1, if OwnAt(events, sessionID, endpoint, i) then Some(events[i].now) else last)
  {
    if OwnAt(events, sessionID, endpoint, i) {
      assert LatestOwn(events, sessionID, endpoint, i, i + 1);
    } else if last.Some? {
      var j: nat :| LatestOwn(events, sessionID, endpoint, j, i) && events[j].now == last.value;
      assert LatestOwn(events, sessionID, endpoint, j, i + 1);
    }
  }

  lemma OwnNext(events: seq<Event>, sessionID: u32, endpoint: u64, i: nat, n: nat)
    requires i < n <= |events|
    ensures Own(events[i..n], sessionID, endpoint)
         == Own(events[i..n - 1], sessionID, endpoint) + (if OwnAt(events, sessionID, endpoint, n - 1) then [events[n - 1].arrival] else [])
  {
    assert events[i..n][..n - i - 1] == events[i..n - 1];
  }

  lemma OwnBehind(events: seq<Event>, sessionID: u32, endpoint: u64, i: nat, n: nat)
    requires i < n <= |events|
    ensures Own(events[i..n], sessionID, endpoint)
         == (if OwnAt(events, sessionID, endpoint, i) then [events[i].arrival] else []) + Own(events[i + 1..n], sessionID, endpoint)
    decreases n - i
  {
    OwnNext(events, sessionID, endpoint, i, n);
    if i + 1 == n {
      assert events[i..i] == [] && events[i + 1..n] == [];
    } else {
      OwnBehind(events, sessionID, endpoint, i, n - 1);
      OwnNext(events, sessionID, endpoint, i + 1, n);
      hide Own, OwnAt;
    }
  }

  lemma {:induction false} TakenFrom(events: seq<Event>, sessionID: u32, endpoint: u64, ttl: int, i: nat, n: nat, last: Option<int>)
    requires i <= n && RunsThrough(events, sessionID, endpoint, ttl, n) && LastIs(events, sessionID, endpoint, i, last)
    ensures Taken(events[i..], sessionID, endpoint, ttl, last) == Own(events[i..n], sessionID, endpoint)
    decreases n - i
  {
    if i < |events| {
      assert events[i..][0] == events[i] && events[i..][1..] == events[i + 1..];
      if events[i].Check? { CheckStopsIff(events, sessionID, endpoint, ttl, i, last); }
      hide StopsAt, LastIs;
      if i < n {
        assert !StopsAt(events, sessionID, endpoint, ttl, i);
        LastMovesOn(events, sessionID, endpoint, i, last);
        var next := if OwnAt(events, sessionID, endpoint, i) then Some(events[i].now) else last;
        TakenFrom(events, sessionID, endpoint, ttl, i + 1, n, next);
        OwnBehind(events, sessionID, endpoint, i, n);
      }
    }
  }

  /** What the loop takes are its own messages up to where it stops, and all of them
      if it does not: messages of others neither count nor keep it alive. */
  lemma TakenIsOwn(events: seq<Event>, sessionID: u32, endpoint: u64, ttl: int, n: nat)
    requires RunsThrough(events, sessionID, endpoint, ttl, n)
    ensures Taken(events, sessionID, endpoint, ttl, None) == Own(events[..n], sessionID, endpoint)
  {
    TakenFrom(events, sessionID, endpoint, ttl, 0, n, None);
    assert events[0..] == events && events[0..n] == events[..n];
  }

  /** There is always one such place. */
  lemma {:induction false} SomePlaceToStop(events: seq<Event>, sessionID: u32, endpoint: u64, ttl: int, i: nat) returns (n: nat)
    requires i <= |events| && forall k: nat :: k < i ==> !StopsAt(events, sessionID, endpoint, ttl, k)
    ensures RunsThrough(events, sessionID, endpoint, ttl, n)
    decreases |events| - i
  {
    if i == |events| || StopsAt(events, sessionID, endpoint, ttl, i) {
      n := i;
    } else {
      n := SomePlaceToStop(events, sessionID, endpoint, ttl, i + 1);
    }
  }

  /** A stream whose session goes on and whose messages keep coming loses none of them. */
  lemma LivelyLosesNothing(events: seq<Event>, sessionID: u32, endpoint: u64, ttl: int)
    requires Cancelled !in events
    requires forall i: nat :: i < |events| && events[i].Check? ==>
      exists j: nat :: LatestOwn(events, sessionID, endpoint, j, i) && events[i].now - events[j].now < ttl
    ensures Taken(events, sessionID, endpoint, ttl, None) == Own(events, sessionID, endpoint)
  {
    hide LatestOwn;
    assert events[..|events|] == events;
    TakenIsOwn(events, sessionID, endpoint, ttl, |events|);
  }

  /** The loop of one session and endpoint. */
  method StreamEndpoint(cfg: Config, ttl: int, receiver: Receiver, sessionID: u32, endpoint: u64, events: seq<Event>)
    returns (fatal: bool)
    requires receiver.out == []
    modifies receiver
    ensures !fatal
    ensures receiver.out == Run(ByEndpoint, cfg, Taken(events, sessionID, endpoint, ttl, None)).sent
    ensures forall n: nat :: RunsThrough(events, sessionID, endpoint, ttl, n) ==>
      receiver.out == Run(ByEndpoint, cfg, Own(events[..n], sessionID, endpoint)).sent
  {
    forall n: nat | RunsThrough(events, sessionID, endpoint, ttl, n)
      ensures Taken(events, sessionID, endpoint, ttl, None) == Own(events[..n], sessionID, endpoint)
    {
      TakenIsOwn(events, sessionID, endpoint, ttl, n);
    }
    hide RunsThrough;
    var wl := new WaitingList(receiver, endpoint);
    var lastMessageTs: Option<int> := None;
    ghost var done: seq<Arrival> := [];
    assert events[0..] == events;
    fatal := false;
    for i := 0 to |events|
      invariant fresh(wl) && wl.sender == receiver && wl.Valid() && Inv(ByEndpoint, cfg, wl.Value())
      invariant done + Taken(events[i..], sessionID, endpoint, ttl, lastMessageTs)
             == Taken(events, sessionID, endpoint, ttl, None)
      invariant Outcome(wl.Value(), receiver.out) == Run(ByEndpoint, cfg, done)
      invariant !fatal
    {
      assert events[i..][1..] == events[i + 1..];
      match events[i] {
        case Check(now) =>
          if lastMessageTs.None? || now - lastMessageTs.value >= ttl {
            assert done + [] == done;
            return;
          }
        case Cancelled =>
          assert done + [] == done;
          return;
        case Incoming(sid, a, now) =>
          if sid == sessionID && a.msg.endpoint == endpoint {
            lastMessageTs := Some(now);
            ConcatIsAssociative(done, [a], Taken(events[i + 1..], sessionID, endpoint, ttl, lastMessageTs));
            RunAppend(ByEndpoint, cfg, done, a);
            hide Run, Step, Inv, Taken;
            fatal := Accept(ByEndpoint, cfg, wl, a);
            done := done + [a];
          }
      }
    }
    assert done + [] == done;
  }
}
