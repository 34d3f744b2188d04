/** The interface's read loop with its counter objects, and the pool they come from
    and return to. Proved against module Numbering. */
module Listener {
  import opened Bytes
  import opened Numbering

  class EndpointSequence {
    var id: u32
    var ts: int
    ghost var owner: Option<u64>  // the endpoint it counts for, while it is live

    constructor ()
      ensures id == 0 && ts == 0 && owner == None
    {
      id, ts, owner := 0, 0, None;
    }
  }

  /** A pool hands out any object it holds, or a new one. */
  class EndpointSequencePool {
    var free: set<EndpointSequence>

    constructor ()
      ensures free == {}
    {
      free := {};
    }

    ghost predicate Valid()
      reads this, free
    {
      forall s :: s in free ==> s.owner == None && s.id == 0 && s.ts == 0
    }

    method Get(reuse: bool) returns (s: EndpointSequence)
      requires Valid()
      modifies this
      ensures Valid()
      ensures s.owner == None && s.id == 0 && s.ts == 0
      ensures s !in free && (s in old(free) || fresh(s))
      ensures free == old(free) - {s}
    {
      if reuse && free != {} {
        s :| s in free;
        free := free - {s};
      } else {
        s := new EndpointSequence();
      }
    }

    method Put(s: EndpointSequence)
      requires Valid()
      modifies this, s
      ensures Valid()
      ensures free == old(free) + {s}
    {
      s.id, s.ts, s.owner := 0, 0, None;
      free := free + {s};
    }
  }

  /** What is left while the endpoints in `pending` have not been looked at yet. */
  function KeptSoFar(m: map<u64, Counter>, pending: set<u64>, curTs: int, ttl: int): map<u64, Counter> {
    map e | e in m && (e in pending || !Silent(m[e], curTs, ttl)) :: m[e]
  }

  lemma KeptEnds(m: map<u64, Counter>, curTs: int, ttl: int)
    ensures KeptSoFar(m, m.Keys, curTs, ttl) == m
    ensures KeptSoFar(m, {}, curTs, ttl) == Kept(m, curTs, ttl)
  {
  }

  lemma KeptNext(m: map<u64, Counter>, pending: set<u64>, e: u64, curTs: int, ttl: int)
    requires e in m && e in pending
    ensures e in KeptSoFar(m, pending, curTs, ttl) && KeptSoFar(m, pending, curTs, ttl)[e] == m[e]
    ensures KeptSoFar(m, pending - {e}, curTs, ttl)
         == if Silent(m[e], curTs, ttl) then KeptSoFar(m, pending, curTs, ttl) - {e} else KeptSoFar(m, pending, curTs, ttl)
  {
  }

  lemma EvictedIs(t: Table, curTs: int, ttl: int)
    ensures ttl > 0 && |t.counters| >= t.maxEndpoints ==>
      var kept := Kept(t.counters, curTs, ttl);
      Evicted(t, curTs, ttl) == Table(kept, Adapted(t.maxEndpoints, |t.counters| - |kept|))
    ensures !(ttl > 0 && |t.counters| >= t.maxEndpoints) ==> Evicted(t, curTs, ttl) == t
  {
  }

  class EndpointTable {
    const ttl: int
    const pool: EndpointSequencePool
    var endpointsMap: map<u64, EndpointSequence>
    ghost var counters: map<u64, Counter>  // the value of every counter object
    ghost var repr: set<EndpointSequence>  // every counter object, live or pooled

    constructor (ttl: int)
      ensures Valid() && this.ttl == ttl && counters == map[] && endpointsMap == map[] && fresh(pool) && fresh(repr)
    {
      this.ttl := ttl;
      pool := new EndpointSequencePool();
      endpointsMap, counters, repr := map[], map[], {};
    }

    ghost predicate Owns(e: u64)
      requires e in endpointsMap && e in counters
      reads this, endpointsMap[e]
    {
      var s := endpointsMap[e];
      s in repr && s.owner == Some(e) && counters[e] == Counter(s.id, s.ts)
    }

    /** Live objects belong to one endpoint each, pooled ones to none. */
    ghost predicate Valid()
      reads this, pool, repr
    {
      && pool.free <= repr && pool.Valid()
      && (forall e :: e in counters <==> e in endpointsMap)
      && forall e :: e in endpointsMap ==> endpointsMap[e] in repr && Owns(e)
    }

    /** No two live endpoints share a counter, and none in the pool is live. */
    lemma CountersAreNotShared(e: u64, f: u64)
      requires Valid() && e in endpointsMap && f in endpointsMap
      ensures e != f ==> endpointsMap[e] != endpointsMap[f]
      ensures endpointsMap[e] !in pool.free
    {
      assert Owns(e) && Owns(f);
    }

    lemma CounterOf(e: u64)
      requires Valid() && e in endpointsMap
      ensures e in counters && counters[e] == Counter(endpointsMap[e].id, endpointsMap[e].ts)
    {
      assert Owns(e);
    }

    lemma AsManyCounters()
      requires Valid()
      ensures |counters| == |endpointsMap|
    {
      SameKeys(counters, endpointsMap);
    }

    /** Makes an idle counter object that of the endpoint. */
    method Attach(endpoint: u64, s: EndpointSequence)
      requires Valid() && endpoint !in endpointsMap
      requires s.owner == None && s.id == 0 && s.ts == 0 && s !in pool.free
      modifies this, s
      ensures Valid() && repr == old(repr) + {s}
      ensures endpointsMap == old(endpointsMap)[endpoint := s]
      ensures counters == old(counters)[endpoint := Counter(0, 0)]
    {
      hide EndpointSequencePool.Valid;
      s.owner := Some(endpoint);
      endpointsMap := endpointsMap[endpoint := s];
      counters := counters[endpoint := Counter(0, 0)];
      repr := repr + {s};
      assert Valid() by {
        forall e | e in endpointsMap ensures endpointsMap[e] in repr && Owns(e) {
          if e != endpoint { assert old(Owns(e)); }
        }
      }
    }

    /** Makes sure the endpoint has a counter. */
    method Enter(endpoint: u64, reuse: bool) returns (added: bool)
      requires Valid()
      modifies this, pool, repr
      ensures Valid() && fresh(repr - old(repr)) && endpoint in endpointsMap
      ensures added <==> endpoint !in old(counters)
      ensures |endpointsMap| == |old(endpointsMap)| + if added then 1 else 0
      ensures counters == if added then old(counters)[endpoint := Counter(0, 0)] else old(counters)
    {
      added := endpoint !in endpointsMap;
      if added {
        var s := pool.Get(reuse);
        hide EndpointSequencePool.Valid, Owns;
        assert Valid();
        Attach(endpoint, s);
      }
    }

    method Count(endpoint: u64, now: int) returns (id: u32)
      requires Valid() && endpoint in endpointsMap
      modifies this`counters, repr
      ensures Valid() && id == Inc32(old(counters)[endpoint].id)
      ensures counters == old(counters)[endpoint := Counter(id, now)]
    {
      assert Owns(endpoint);
      var s := endpointsMap[endpoint];
      s.id := Inc32(s.id);
      s.ts := now;
      id := s.id;
      counters := counters[endpoint := Counter(s.id, s.ts)];
      forall e | e in endpointsMap ensures Owns(e) {
        if e != endpoint { assert old(Owns(e)); }
      }
    }

    method GetMessageID(endpoint: u64, now: int, reuse: bool) returns (id: u32, added: bool)
      requires Valid()
      modifies this, pool, repr
      ensures Valid() && fresh(repr - old(repr))
      ensures added <==> endpoint !in old(counters)
      ensures |endpointsMap| == |old(endpointsMap)| + if added then 1 else 0
      ensures id == Inc32(if added then 0 else old(counters)[endpoint].id)
      ensures counters == old(counters)[endpoint := Counter(id, now)]
    {
      UpdateTwice(counters, endpoint, Counter(0, 0), Counter(Inc32(0), now));
      added := Enter(endpoint, reuse);
      CounterOf(endpoint);
      hide Valid;
      id := Count(endpoint, now);
    }

    /** Takes one endpoint out and returns its counter to the pool. */
    method Drop(e: u64)
      requires Valid() && e in endpointsMap
      modifies this, pool, repr
      ensures Valid() && repr == old(repr)
      ensures counters == old(counters) - {e} && endpointsMap == old(endpointsMap) - {e}
    {
      assert Owns(e);
      var es := endpointsMap[e];
      endpointsMap := endpointsMap - {e};
      counters := counters - {e};
      pool.Put(es);
      forall f | f in endpointsMap ensures Owns(f) {
        assert old(Owns(f));
      }
    }

    /** Looks at one endpoint and drops it if it was silent. */
    method DropIfSilent(e: u64, curTs: int) returns (dropped: bool)
      requires Valid() && e in endpointsMap && e in counters
      modifies this, pool, repr
      ensures Valid() && repr == old(repr)
      ensures dropped == Silent(old(counters)[e], curTs, ttl)
      ensures counters == if dropped then old(counters) - {e} else old(counters)
      ensures endpointsMap == if dropped then old(endpointsMap) - {e} else old(endpointsMap)
    {
      CounterOf(e);
      dropped := curTs > endpointsMap[e].ts + ttl;
      if dropped {
        Drop(e);
      }
    }

    /** Goes through the endpoints in whatever order the map gives them. */
    method EvictSilent(curTs: int) returns (deleted: nat)
      requires Valid()
      modifies this, pool, repr
      ensures Valid() && repr == old(repr) && counters == Kept(old(counters), curTs, ttl)
      ensures |endpointsMap| + deleted == |old(endpointsMap)|
    {
      ghost var all := counters;
      KeptEnds(all, curTs, ttl);
      var keys := endpointsMap.Keys;
      assert keys == all.Keys;
      deleted := 0;
      hide Kept, KeptSoFar, Silent, Valid;
      while keys != {}
        invariant Valid() && repr == old(repr)
        invariant keys <= all.Keys && keys <= endpointsMap.Keys
        invariant counters == KeptSoFar(all, keys, curTs, ttl)
        invariant |endpointsMap| + deleted == |old(endpointsMap)|
        decreases |keys|
      {
        var e :| e in keys;
        KeptNext(all, keys, e, curTs, ttl);
        RemoveOne(endpointsMap, e);
        var dropped := DropIfSilent(e, curTs);
        if dropped {
          deleted := deleted + 1;
        }
        keys := keys - {e};
      }
    }
  }

  method Adapt(maxEndpoints: int, deleted: nat) returns (adapted: int)
    ensures adapted == Adapted(maxEndpoints, deleted)
  {
    if deleted == 0 {
      return maxEndpoints + INCREMENT_ENDPOINTS;
    } else if maxEndpoints - deleted <= INITIAL_ENDPOINTS {
      return INITIAL_ENDPOINTS;
    } else if maxEndpoints - INCREMENT_ENDPOINTS >= INITIAL_ENDPOINTS {
      return maxEndpoints - INCREMENT_ENDPOINTS;
    } else {
      return maxEndpoints - 1;
    }
  }

  /** What follows once the counters reach the threshold. */
  method Evict(table: EndpointTable, length: int, maxEndpoints: int, curTs: int) returns (newLength: int, newMax: int)
    requires table.Valid() && length == |table.endpointsMap|
    modifies table, table.pool, table.repr
    ensures table.Valid() && newLength == |table.endpointsMap| && table.repr == old(table.repr)
    ensures Table(table.counters, newMax) == Evicted(Table(old(table.counters), maxEndpoints), curTs, table.ttl)
  {
    EvictedIs(Table(table.counters, maxEndpoints), curTs, table.ttl);
    table.AsManyCounters();
    newLength, newMax := length, maxEndpoints;
    hide EndpointTable.Valid, Evicted, Kept, Adapted;
    if table.ttl > 0 && length >= maxEndpoints {
      var deleted := table.EvictSilent(curTs);
      table.AsManyCounters();
      newLength := length - deleted;
      newMax := Adapt(maxEndpoints, deleted);
    }
  }

  /** One turn of the read loop; the length and the threshold are its local variables. */
  method ReadPacket(table: EndpointTable, length: int, maxEndpoints: int, p: Packet, reuse: bool)
    returns (id: u32, newLength: int, newMax: int)
    requires table.Valid() && length == |table.endpointsMap|
    modifies table, table.pool, table.repr
    ensures table.Valid() && newLength == |table.endpointsMap| && fresh(table.repr - old(table.repr))
    ensures id == NextID(Table(old(table.counters), maxEndpoints), p.endpoint)
    ensures Table(table.counters, newMax) == Read(Table(old(table.counters), maxEndpoints), p, table.ttl)
  {
    var added;
    id, added := table.GetMessageID(p.endpoint, p.now, reuse);
    hide EndpointTable.Valid, Evicted;
    newLength, newMax := Evict(table, if added then length + 1 else length, maxEndpoints, p.curTs);
  }

  lemma RemoveOne<K, V>(m: map<K, V>, k: K)
    requires k in m
    ensures |m - {k}| == |m| - 1
  {
    assert m.Keys == (m - {k}).Keys + {k};
  }

  lemma OneMorePacket(ttl: int, packets: seq<Packet>, i: nat)
    requires i < |packets|
    ensures After(ttl, packets[..i + 1]) == Read(After(ttl, packets[..i]), packets[i], ttl)
    ensures Issued(ttl, packets[..i + 1])
         == Issued(ttl, packets[..i]) + [NextID(After(ttl, packets[..i]), packets[i].endpoint)]
  {
    assert packets[..i + 1][..i] == packets[..i];
  }

  lemma SameKeys<K, V, W>(m: map<K, V>, n: map<K, W>)
    requires forall k :: k in m <==> k in n
    ensures |m| == |n|
  {
    assert m.Keys == n.Keys;
    assert |m| == |m.Keys| && |n| == |n.Keys|;
  }

  /** The read loop of one interface. `reuse` says when the pool hands out an object again. */
  method Listen(ttl: int, packets: seq<Packet>, reuse: nat -> bool) returns (ids: seq<u32>)
    ensures ids == Issued(ttl, packets) && |ids| == |packets|
    ensures forall i :: 0 <= i < |ids| ==> ids[i] == IdOf(ttl, packets, i)
  {
    var table := new EndpointTable(ttl);
    var endpointsMapLen, maxEndpoints := 0, INITIAL_ENDPOINTS;
    ids := [];
    assert packets[..|packets|] == packets;
    assert Issued(ttl, packets[..0]) == [] && After(ttl, packets[..0]) == EMPTY;
    hide EndpointTable.Valid, Read, After, Issued, NextID;
    for i := 0 to |packets|
      invariant fresh(table) && fresh(table.pool) && fresh(table.repr)
      invariant table.Valid() && table.ttl == ttl && endpointsMapLen == |table.endpointsMap|
      invariant Table(table.counters, maxEndpoints) == After(ttl, packets[..i])
      invariant ids == Issued(ttl, packets[..i]) && |ids| == i
    {
      OneMorePacket(ttl, packets, i);
      var id;
      id, endpointsMapLen, maxEndpoints := ReadPacket(table, endpointsMapLen, maxEndpoints, packets[i], reuse(i));
      ids := ids + [id];
    }
    forall i | 0 <= i < |ids| ensures ids[i] == IdOf(ttl, packets, i) { IssuedAt(ttl, packets, i); }
  }
}
