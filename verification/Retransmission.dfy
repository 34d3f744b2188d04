/** The table of unacknowledged messages: what is stored when a message is sent, and
    what an acknowledgement takes out. */
module Retransmission {
  import opened Bytes
  import opened Acknowledgements

  datatype Key = Key(endpoint: u64, id: u32)

  /** The key of a message that has been reset. */
  const BLANK_KEY := Key(0, 0)

  predicate Names(data: AckData, key: Key) {
    key.endpoint in data && key.id in data[key.endpoint]
  }

  function Unacknowledged(messages: map<Key, bytes>, data: AckData): map<Key, bytes> {
    map key | key in messages && !Names(data, key) :: messages[key]
  }

  /** The table without the keys looked up so far. */
  function Without(messages: map<Key, bytes>, seen: set<Key>): map<Key, bytes> {
    map key | key in messages && key !in seen :: messages[key]
  }

  /** The keys the loops have looked up: all of the endpoints already done, and of the
      current one the first `j`. */
  ghost predicate LookedUp(data: AckData, order: seq<u64>, k: nat, j: nat, key: Key)
    requires k <= |order| && (forall e :: e in order ==> e in data)
    requires k < |order| ==> j <= |data[order[k]]|
  {
    || (key.endpoint in order[..k] && Names(data, key))
    || (k < |order| && key.endpoint == order[k] && key.id in data[order[k]][..j])
  }

  lemma LookUpOne(data: AckData, order: seq<u64>, k: nat, j: nat, key: Key)
    requires IsOrder(order, data) && k < |order| && j < |data[order[k]]|
    ensures LookedUp(data, order, k, j + 1, key)
        <==> LookedUp(data, order, k, j, key) || key == Key(order[k], data[order[k]][j])
  {
    var ids := data[order[k]];
    assert ids[..j + 1] == ids[..j] + [ids[j]];
  }

  lemma LookUpAll(data: AckData, order: seq<u64>, k: nat, key: Key)
    requires IsOrder(order, data) && k < |order|
    ensures LookedUp(data, order, k, |data[order[k]]|, key) <==> LookedUp(data, order, k + 1, 0, key)
  {
    var ids := data[order[k]];
    assert ids[..|ids|] == ids;
    assert order[..k + 1] == order[..k] + [order[k]];
  }

  lemma LookUpEnds(data: AckData, order: seq<u64>, key: Key)
    requires IsOrder(order, data)
    ensures !LookedUp(data, order, 0, 0, key)
    ensures LookedUp(data, order, |order|, 0, key) <==> Names(data, key)
  {
    assert order[..|order|] == order;
  }

  class Retry {
    var messages: map<Key, bytes>

    constructor ()
      ensures messages == map[]
    {
      messages := map[];
    }

    method Push(endpoint: u64, id: u32, datagram: bytes)
      modifies this
      ensures messages == old(messages)[Key(endpoint, id) := datagram]
    {
      messages := messages[Key(endpoint, id) := datagram];
    }

    /** What a message's goroutine does when it ends. It resets the message before it
        deletes the message's key, so the key it deletes is the blank one. */
    method Finish()
      modifies this
      ensures messages == old(messages) - {BLANK_KEY}
    {
      messages := messages - {BLANK_KEY};
    }

    /** Takes one entry out, if it is there. */
    method LoadAndDelete(key: Key) returns (found: bool)
      modifies this
      ensures found == (key in old(messages))
      ensures messages == Without(old(messages), {key})
    {
      found := key in messages;
      messages := map k | k in messages && k != key :: messages[k];
    }

    /** `stopped` lists the entries whose goroutine is told to stop: those named and
        still there, each once, however often the acknowledgement repeats an ID. */
    method Ack(ids: Option<AckData>, order: seq<u64>) returns (stopped: seq<Key>)
      requires ids.Some? ==> IsOrder(order, ids.value)
      modifies this
      ensures messages == if ids.None? then old(messages) else Unacknowledged(old(messages), ids.value)
      ensures forall key :: key in stopped <==> key in old(messages) && key !in messages
      ensures forall i, j :: 0 <= i < j < |stopped| ==> stopped[i] != stopped[j]
    {
      stopped := [];
      if ids.None? {
        return;
      }
      var data := ids.value;
      ghost var all, seen := messages, {};
      forall key { LookUpEnds(data, order, key); }
      for k := 0 to |order|
        invariant forall key :: key in seen <==> LookedUp(data, order, k, 0, key)
        invariant Progress(all, seen, stopped)
      {
        var list := data[order[k]];
        for j := 0 to |list|
          invariant forall key :: key in seen <==> LookedUp(data, order, k, j, key)
          invariant Progress(all, seen, stopped)
        {
          forall key { LookUpOne(data, order, k, j, key); }
          hide LookedUp, IsOrder;
          var key := Key(order[k], list[j]);
          var found := LoadAndDelete(key);
          WithoutMore(all, seen, key, stopped);
          if found {
            stopped := stopped + [key];
          }
          seen := seen + {key};
        }
        forall key { LookUpAll(data, order, k, key); }
      }
      assert messages == Unacknowledged(all, data);
    }

    /** What has been taken out of `all` after `seen` was looked up. */
    ghost predicate Progress(all: map<Key, bytes>, seen: set<Key>, stopped: seq<Key>)
      reads this
    {
      && messages == Without(all, seen)
      && Taken(all, seen, stopped)
    }
  }

  ghost predicate Taken(all: map<Key, bytes>, seen: set<Key>, stopped: seq<Key>) {
    && (forall key :: key in stopped <==> key in all && key in seen)
    && (forall i, j :: 0 <= i < j < |stopped| ==> stopped[i] != stopped[j])
  }

  lemma WithoutMore(all: map<Key, bytes>, seen: set<Key>, key: Key, stopped: seq<Key>)
    requires Taken(all, seen, stopped)
    ensures Without(Without(all, seen), {key}) == Without(all, seen + {key})
    ensures Taken(all, seen + {key}, if key in Without(all, seen) then stopped + [key] else stopped)
  {
  }
}
