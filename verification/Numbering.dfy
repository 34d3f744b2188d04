/**
 How the packets read from an interface are numbered: a counter for every endpoint,
 eviction of endpoints that were silent too long, and the threshold that decides when
 to look for them.
 */
module Numbering {
  import opened Bytes

  const INITIAL_ENDPOINTS := 100
  const INCREMENT_ENDPOINTS := 10

  datatype Counter = Counter(id: u32, ts: int)

  datatype Table = Table(counters: map<u64, Counter>, maxEndpoints: int)

  const EMPTY: Table := Table(map[], INITIAL_ENDPOINTS)

  /** A packet read: its endpoint, when it was numbered, and when eviction looked at the clock. */
  datatype Packet = Packet(endpoint: u64, now: int, curTs: int)

  function NextID(t: Table, endpoint: u64): u32 {
    Inc32(if endpoint in t.counters then t.counters[endpoint].id else 0)
  }

  function Numbered(t: Table, p: Packet): Table {
    t.(counters := t.counters[p.endpoint := Counter(NextID(t, p.endpoint), p.now)])
  }

  predicate Silent(c: Counter, curTs: int, ttl: int) {
    curTs > c.ts + ttl
  }

  function Kept(counters: map<u64, Counter>, curTs: int, ttl: int): map<u64, Counter> {
    map e | e in counters && !Silent(counters[e], curTs, ttl) :: counters[e]
  }

  function Adapted(maxEndpoints: int, deleted: int): int {
    if deleted == 0 then maxEndpoints + INCREMENT_ENDPOINTS
    else if maxEndpoints - deleted <= INITIAL_ENDPOINTS then INITIAL_ENDPOINTS
    else if maxEndpoints - INCREMENT_ENDPOINTS >= INITIAL_ENDPOINTS then maxEndpoints - INCREMENT_ENDPOINTS
    else maxEndpoints - 1
  }

  function Evicted(t: Table, curTs: int, ttl: int): Table {
    if ttl > 0 && |t.counters| >= t.maxEndpoints then
      var kept := Kept(t.counters, curTs, ttl);
      Table(kept, Adapted(t.maxEndpoints, |t.counters| - |kept|))
    else t
  }

  function Read(t: Table, p: Packet, ttl: int): Table {
    Evicted(Numbered(t, p), p.curTs, ttl)
  }

  function After(ttl: int, packets: seq<Packet>): Table {
    if packets == [] then EMPTY else Read(After(ttl, packets[..|packets| - 1]), packets[|packets| - 1], ttl)
  }

  /** The ID given to the `i`-th packet. */
  function IdOf(ttl: int, packets: seq<Packet>, i: nat): u32
    requires i < |packets|
  {
    NextID(After(ttl, packets[..i]), packets[i].endpoint)
  }

  /** All IDs given, in order. */
  function Issued(ttl: int, packets: seq<Packet>): seq<u32> {
    if packets == [] then []
    else
      var before := packets[..|packets| - 1];
      Issued(ttl, before) + [NextID(After(ttl, before), packets[|packets| - 1].endpoint)]
  }

  lemma {:induction false} IssuedAt(ttl: int, packets: seq<Packet>, i: nat)
    requires i < |packets|
    ensures |Issued(ttl, packets)| == |packets| && Issued(ttl, packets)[i] == IdOf(ttl, packets, i)
  {
    var before := packets[..|packets| - 1];
    if i < |before| {
      IssuedAt(ttl, before, i);
      assert before[..i] == packets[..i];
    } else {
      if before != [] { IssuedAt(ttl, before, 0); }
      assert before == packets[..i];
    }
  }

  // ----- properties of every run

  lemma KeptIsSmaller(counters: map<u64, Counter>, curTs: int, ttl: int)
    ensures |Kept(counters, curTs, ttl)| <= |counters|
  {
    var kept := Kept(counters, curTs, ttl);
    assert kept.Keys <= counters.Keys;
    SubsetIsSmaller(kept.Keys, counters.Keys);
  }

  lemma {:induction false} SubsetIsSmaller<T>(a: set<T>, b: set<T>)
    requires a <= b
    ensures |a| <= |b|
  {
    if a != {} {
      var x :| x in a;
      SubsetIsSmaller(a - {x}, b - {x});
    }
  }

  /** The threshold never falls below its initial value. */
  lemma {:induction false} ThresholdStaysUp(ttl: int, packets: seq<Packet>)
    ensures After(ttl, packets).maxEndpoints >= INITIAL_ENDPOINTS
  {
    if packets != [] {
      var before, p := After(ttl, packets[..|packets| - 1]), packets[|packets| - 1];
      ThresholdStaysUp(ttl, packets[..|packets| - 1]);
      KeptIsSmaller(Numbered(before, p).counters, p.curTs, ttl);
    }
  }

  /** Looking in vain raises the threshold and a find never does; it falls by no more
      than was found or one increment. */
  lemma ThresholdAdapts(maxEndpoints: int, deleted: nat)
    requires maxEndpoints >= INITIAL_ENDPOINTS
    ensures Adapted(maxEndpoints, deleted) > maxEndpoints <==> deleted == 0
    ensures Adapted(maxEndpoints, deleted) >= maxEndpoints - if deleted > INCREMENT_ENDPOINTS then deleted else INCREMENT_ENDPOINTS
  {
  }

  lemma AdaptedFromRound(maxEndpoints: int, found: nat)
    requires maxEndpoints % 10 == 0 && maxEndpoints >= 100
    ensures Adapted(maxEndpoints, found)
         == if found == 0 then maxEndpoints + 10 else if maxEndpoints - found <= 100 then 100 else maxEndpoints - 10
  {
  }

  /** The threshold is always a multiple of ten, so that its slowest descent never happens. */
  lemma {:induction false} ThresholdIsRound(ttl: int, packets: seq<Packet>)
    ensures After(ttl, packets).maxEndpoints % 10 == 0 && After(ttl, packets).maxEndpoints >= 100
  {
    if packets != [] {
      var before, p := After(ttl, packets[..|packets| - 1]), packets[|packets| - 1];
      ThresholdIsRound(ttl, packets[..|packets| - 1]);
      var full := Numbered(before, p);
      KeptIsSmaller(full.counters, p.curTs, ttl);
      hide After, Adapted, Kept;
      AdaptedFromRound(before.maxEndpoints, |full.counters| - |Kept(full.counters, p.curTs, ttl)|);
    }
  }

  /** What a packet does to the counters of a run and to the threshold. There is no look
      at the clock unless eviction is on and the counters reach the threshold. Otherwise
      those stay that were numbered no more than `ttl` before the look; a look in vain
      raises the threshold by ten, and any other lowers it by ten, or to 100 if what was
      found takes it there. */
  lemma ReadIsExact(ttl: int, packets: seq<Packet>, p: Packet)
    ensures var t, next := After(ttl, packets), After(ttl, packets + [p]);
      var known := t.counters.Keys + {p.endpoint};
      && (p.endpoint in next.counters ==> next.counters[p.endpoint].ts == p.now)
      && (forall e :: e in next.counters && e != p.endpoint ==> e in t.counters && next.counters[e] == t.counters[e])
      && if ttl <= 0 || |known| < t.maxEndpoints then next.counters.Keys == known && next.maxEndpoints == t.maxEndpoints
         else
           && (forall e :: e in next.counters <==>
                 e in known && p.curTs <= (if e == p.endpoint then p.now else t.counters[e].ts) + ttl)
           && var found := |known| - |next.counters|;
           next.maxEndpoints ==
             if found == 0 then t.maxEndpoints + 10
             else if t.maxEndpoints - found <= 100 then 100
             else t.maxEndpoints - 10
  {
    var t := After(ttl, packets);
    var full := Numbered(t, p);
    ThresholdIsRound(ttl, packets);
    assert (packets + [p])[..|packets|] == packets;
    assert full.counters.Keys == t.counters.Keys + {p.endpoint};
    KeptIsSmaller(full.counters, p.curTs, ttl);
    hide NextID, After, Adapted;
    AdaptedFromRound(t.maxEndpoints, |full.counters| - |Kept(full.counters, p.curTs, ttl)|);
  }

  /** No packet of the endpoint lies from `i` on. */
  ghost predicate Absent(packets: seq<Packet>, i: nat, endpoint: u64) {
    forall k :: i <= k < |packets| ==> packets[k].endpoint != endpoint
  }

  /** Some look at the clock, from the `i`-th packet on, came more than `ttl` after it. */
  ghost predicate SilenceSeen(ttl: int, packets: seq<Packet>, i: nat) {
    ttl > 0 && i < |packets| && exists k :: i <= k < |packets| && packets[k].curTs > packets[i].now + ttl
  }

  lemma {:induction false} UnseenIsAbsent(ttl: int, packets: seq<Packet>, endpoint: u64)
    requires Absent(packets, 0, endpoint)
    ensures endpoint !in After(ttl, packets).counters
  {
    if packets != [] { UnseenIsAbsent(ttl, packets[..|packets| - 1], endpoint); }
  }

  /** After its latest packet an endpoint's counter stands where that packet left it,
      unless the endpoint was evicted, and then it had been silent too long. */
  lemma {:induction false} CounterOrSilence(ttl: int, packets: seq<Packet>, i: nat)
    requires i < |packets| && Absent(packets, i + 1, packets[i].endpoint)
    ensures var e := packets[i].endpoint; var t := After(ttl, packets);
      if e in t.counters then t.counters[e] == Counter(IdOf(ttl, packets, i), packets[i].now)
      else SilenceSeen(ttl, packets, i)
  {
    var before, p := packets[..|packets| - 1], packets[|packets| - 1];
    var e := packets[i].endpoint;
    if i == |packets| - 1 {
      assert before == packets[..i];
      assert e !in After(ttl, packets).counters ==> p.curTs > packets[i].now + ttl;
    } else {
      CounterOrSilence(ttl, before, i);
      assert before[..i] == packets[..i];
      if e !in After(ttl, before).counters {
        var k :| i <= k < |before| && before[k].curTs > before[i].now + ttl;
        assert packets[k].curTs > packets[i].now + ttl;
      } else if e !in After(ttl, packets).counters {
        assert p.curTs > packets[i].now + ttl;
      }
    }
  }

  /** The first packet of an endpoint is number 1, each later one follows the one before
      it, and numbering restarts only after more than `ttl` seconds of silence. */
  lemma NumbersAreConsecutive(ttl: int, packets: seq<Packet>, i: nat, j: nat)
    requires i < j < |packets| && packets[i].endpoint == packets[j].endpoint
    requires Absent(packets[..j], i + 1, packets[i].endpoint)
    ensures IdOf(ttl, packets, j) == Inc32(IdOf(ttl, packets, i))
         || (IdOf(ttl, packets, j) == 1 && SilenceSeen(ttl, packets[..j], i))
  {
    CounterOrSilence(ttl, packets[..j], i);
    assert packets[..j][..i] == packets[..i];
  }

  lemma FirstNumberIsOne(ttl: int, packets: seq<Packet>, j: nat)
    requires j < |packets| && Absent(packets[..j], 0, packets[j].endpoint)
    ensures IdOf(ttl, packets, j) == 1
  {
    UnseenIsAbsent(ttl, packets[..j], packets[j].endpoint);
  }

  // ----- endpoints that are never evicted

  /** How many of the packets belong to the endpoint. */
  function Count(packets: seq<Packet>, endpoint: u64): (n: nat) {
    if packets == [] then 0
    else Count(packets[..|packets| - 1], endpoint) + (if packets[|packets| - 1].endpoint == endpoint then 1 else 0)
  }

  /** Every time the endpoint had a counter, it still had it after the next packet. */
  ghost predicate NeverEvicted(ttl: int, packets: seq<Packet>, endpoint: u64) {
    packets != [] ==>
      var before := packets[..|packets| - 1];
      && NeverEvicted(ttl, before, endpoint)
      && (endpoint in After(ttl, before).counters || packets[|packets| - 1].endpoint == endpoint
          ==> endpoint in After(ttl, packets).counters)
  }

  /** Without eviction the next number is one more than the number of packets so far. */
  lemma {:induction false} NumberIsCount(ttl: int, packets: seq<Packet>, endpoint: u64)
    requires NeverEvicted(ttl, packets, endpoint) && Count(packets, endpoint) < MAX_U32
    ensures NextID(After(ttl, packets), endpoint) == Count(packets, endpoint) + 1
    ensures endpoint !in After(ttl, packets).counters ==> Count(packets, endpoint) == 0
  {
    if packets != [] { NumberIsCount(ttl, packets[..|packets| - 1], endpoint); }
  }

  /** Packet `i` is the endpoint's latest when packet `k` has been read. */
  ghost predicate LatestAt(packets: seq<Packet>, i: nat, k: nat, endpoint: u64) {
    i <= k < |packets| && packets[i].endpoint == endpoint && Absent(packets[..k + 1], i + 1, endpoint)
  }

  /** No look at the clock finds the endpoint's latest packet more than `ttl` ago. */
  ghost predicate Chatty(ttl: int, packets: seq<Packet>, endpoint: u64) {
    ttl <= 0 || forall i: nat, k: nat :: LatestAt(packets, i, k, endpoint) ==> packets[k].curTs <= packets[i].now + ttl
  }

  lemma {:induction false} LatestExists(packets: seq<Packet>, endpoint: u64) returns (i: nat)
    requires !Absent(packets, 0, endpoint)
    ensures i < |packets| && packets[i].endpoint == endpoint && Absent(packets, i + 1, endpoint)
  {
    var n := |packets| - 1;
    if packets[n].endpoint == endpoint {
      i := n;
    } else {
      i := LatestExists(packets[..n], endpoint);
      assert forall k :: 0 <= k < n ==> packets[..n][k] == packets[k];
    }
  }

  lemma ChattyBefore(ttl: int, packets: seq<Packet>, endpoint: u64)
    requires packets != [] && Chatty(ttl, packets, endpoint)
    ensures Chatty(ttl, packets[..|packets| - 1], endpoint)
  {
    var before := packets[..|packets| - 1];
    forall i: nat, k: nat | LatestAt(before, i, k, endpoint) ensures LatestAt(packets, i, k, endpoint) {
      assert before[..k + 1] == packets[..k + 1];
    }
  }

  /** A chatty endpoint never loses its counter, however long it stays active; neither
      does any when eviction is switched off. */
  lemma {:induction false} ChattyIsNeverEvicted(ttl: int, packets: seq<Packet>, endpoint: u64)
    requires Chatty(ttl, packets, endpoint)
    ensures NeverEvicted(ttl, packets, endpoint)
  {
    if packets != [] {
      var n := |packets| - 1;
      var before := packets[..n];
      ChattyBefore(ttl, packets, endpoint);
      ChattyIsNeverEvicted(ttl, before, endpoint);
      if endpoint in After(ttl, before).counters || packets[n].endpoint == endpoint {
        if Absent(before, 0, endpoint) { UnseenIsAbsent(ttl, before, endpoint); }
        assert forall k :: 0 <= k < n ==> before[k] == packets[k];
        var i := LatestExists(packets, endpoint);
        CounterOrSilence(ttl, packets, i);
        NeverSilent(ttl, packets, i);
      }
    }
  }

  lemma NeverSilent(ttl: int, packets: seq<Packet>, i: nat)
    requires i < |packets| && Absent(packets, i + 1, packets[i].endpoint) && Chatty(ttl, packets, packets[i].endpoint)
    ensures !SilenceSeen(ttl, packets, i)
  {
    forall k | i <= k < |packets| ensures LatestAt(packets, i, k, packets[i].endpoint) {
      assert forall j :: 0 <= j <= k ==> packets[..k + 1][j] == packets[j];
    }
  }

  // ----- numbers under eviction

  /** Eviction or not, a number is at least 1 and no more than the packets it counts, as
      long as those are fewer than the numbers there are. */
  lemma {:induction false} NumberIsBounded(ttl: int, packets: seq<Packet>, endpoint: u64)
    requires Count(packets, endpoint) < MAX_U32
    ensures 1 <= NextID(After(ttl, packets), endpoint) <= Count(packets, endpoint) + 1
  {
    if packets != [] { NumberIsBounded(ttl, packets[..|packets| - 1], endpoint); }
  }
}
