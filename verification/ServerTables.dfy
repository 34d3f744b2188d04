/** The server's tables as they are edited in place, with the loops over them.
    Proved against module Tables. */
module ServerTables {
  import opened Bytes
  import opened Tables

  lemma JoinedAt(conns: seq<Conn>, conn: Conn, sc: ServerConn, i: nat)
    requires i <= |conns|
    requires forall k :: 0 <= k < i ==> !Slot(conns[k], sc)
    requires i < |conns| ==> Slot(conns[i], sc)
    ensures Joined(conns, conn, sc) == if i < |conns| then conns[i := conn] else conns + [conn]
  {
    if i == 0 {
      if conns != [] { assert [conn] + conns[1..] == conns[0 := conn]; }
    } else {
      JoinedAt(conns[1..], conn, sc, i - 1);
      assert conns == [conns[0]] + conns[1..];
      if i < |conns| { assert [conns[0]] + conns[1..][i - 1 := conn] == conns[i := conn]; }
    }
  }

  predicate Slot(conn: Conn, sc: ServerConn) {
    SameSlot(ServerConn(0, conn.sessionID, conn.protocol, conn.port), sc)
  }

  lemma LeftAt(conns: seq<Conn>, key: nat, i: nat)
    requires i <= |conns|
    requires forall k :: 0 <= k < i ==> conns[k].key != key
    requires i < |conns| ==> conns[i].key == key
    ensures Left(conns, key) == if i < |conns| then conns[..i] + conns[i + 1..] else conns
  {
    if i > 0 {
      var rest := conns[1..];
      LeftAt(rest, key, i - 1);
      assert conns == [conns[0]] + rest;
      if i < |conns| {
        assert conns[..i] == [conns[0]] + rest[..i - 1] && conns[i + 1..] == rest[i..];
        ConcatIsAssociative([conns[0]], rest[..i - 1], rest[i..]);
      }
    }
  }

  /** The connections left once those in `pending` are still to be looked at. */
  function Displacing(m: map<nat, ServerConn>, pending: set<nat>, sc: ServerConn): map<nat, ServerConn> {
    map k | k in m && (k in pending || !SameSlot(m[k], sc)) :: m[k]
  }

  lemma DisplacingEnds(m: map<nat, ServerConn>, sc: ServerConn)
    ensures Displacing(m, m.Keys, sc) == m
    ensures Displacing(m, {}, sc) == map k | k in m && !SameSlot(m[k], sc) :: m[k]
  {
  }

  lemma DisplacingNext(m: map<nat, ServerConn>, pending: set<nat>, k: nat, sc: ServerConn)
    requires k in m && k in pending
    ensures k in Displacing(m, pending, sc) && Displacing(m, pending, sc)[k] == m[k]
    ensures Displacing(m, pending - {k}, sc)
         == if SameSlot(m[k], sc) then Displacing(m, pending, sc) - {k} else Displacing(m, pending, sc)
  {
  }

  class ServerUseCase {
    var sessions: map<u32, Session>
    var client2session: map<nat, u32>
    var interfaces: map<nat, Interface>
    var connections: map<nat, ServerConn>

    constructor ()
      ensures Value() == EMPTY
    {
      sessions, client2session, interfaces, connections := map[], map[], map[], map[];
    }

    function Value(): Server
      reads this
    {
      Server(sessions, client2session, interfaces, connections)
    }

    /** Returns the client's session, or draws IDs until one is free; `draws` is what the
        random source yields, always between 1 and the largest ID but one. */
    method CreateSession(client: nat, user: nat, draws: seq<u32>) returns (id: Option<u32>)
      requires forall i :: 0 <= i < |draws| ==> draws[i] != 0
      modifies this
      ensures client in old(client2session) ==> id == Some(old(client2session)[client]) && Value() == old(Value())
      ensures client !in old(client2session) && id.Some? ==>
        id.value != 0 && id.value !in old(sessions) && Value() == WithSession(old(Value()), client, user, id.value)
      ensures id.None? ==> Value() == old(Value()) && forall i :: 0 <= i < |draws| ==> draws[i] in sessions
    {
      if client in client2session {
        return Some(client2session[client]);
      }
      for i := 0 to |draws|
        invariant Value() == old(Value())
        invariant forall k :: 0 <= k < i ==> draws[k] in sessions
      {
        if draws[i] !in sessions {
          sessions := sessions[draws[i] := Session(0, user, client)];
          client2session := client2session[client := draws[i]];
          return Some(draws[i]);
        }
      }
      return None;
    }

    method DropSession(id: u32)
      requires id in sessions
      modifies this
      ensures Value() == WithoutSession(old(Value()), id)
    {
      var ifName := sessions[id].ifName;
      if ifName !in interfaces {
        return;
      }
      interfaces := interfaces - {ifName};
      client2session := client2session - {sessions[id].client};
      sessions := sessions - {id};
    }

    method DropSessionByID(id: u32) returns (ok: bool)
      modifies this
      ensures ok <==> id in old(sessions)
      ensures Value() == WithoutSession(old(Value()), id)
    {
      ok := id in sessions;
      if ok {
        DropSession(id);
      }
    }

    /** Looking at a session that is not there panics, which consistent tables exclude. */
    method DropSessionByClientID(client: nat) returns (ok: bool, panics: bool)
      modifies this
      ensures ok <==> client in old(client2session)
      ensures panics <==> ok && old(client2session)[client] !in old(sessions)
      ensures Consistent(old(Value())) ==> !panics
      ensures Value() == WithoutClient(old(Value()), client)
    {
      ok := client in client2session;
      panics := false;
      if ok {
        if client2session[client] !in sessions {
          return ok, true;
        }
        DropSession(client2session[client]);
      }
    }

    /** Searches the interfaces, in whatever order, for the highest address in use. */
    method GetTunnelIP(addrMin: u32) returns (block: u32, highest: u32)
      ensures IsHighest(interfaces, highest) && block == BlockAfter(addrMin, highest)
    {
      highest := 0;
      var names := interfaces.Keys;
      while names != {}
        invariant names <= interfaces.Keys
        invariant forall n :: n in interfaces && n !in names ==> LastOf(interfaces[n].block) <= highest
        invariant highest == 0 || exists n :: n in interfaces && LastOf(interfaces[n].block) == highest
        decreases |names|
      {
        var n :| n in names;
        names := names - {n};
        var ip := LastOf(interfaces[n].block);
        if ip > highest {
          highest := ip;
        }
      }
      block := addrMin;
      if highest != 0 {
        block := (highest + 1) % 0x1_0000_0000;
      }
    }

    /** The interface of the session, made if need be; `name` is what the operating
        system calls it and `created` whether it could make it. A session that is not
        there panics when its interface has been made. */
    method CreateInterface(id: u32, name: nat, created: bool, addrMin: u32) returns (ok: bool, highest: u32, panics: bool)
      modifies this
      ensures panics <==> id !in old(sessions) && created
      ensures ok <==> !panics && (created || (id in old(sessions) && old(sessions)[id].ifName != 0))
      ensures created && (id in old(sessions) ==> old(sessions)[id].ifName == 0) ==> IsHighest(old(interfaces), highest)
      ensures var block := BlockAfter(addrMin, highest);
        Value() == if panics then old(Value()).(interfaces := old(interfaces)[name := Interface(block, [], id)])
                   else if ok then WithInterface(old(Value()), id, name, block)
                   else old(Value())
    {
      highest := 0;
      if id in sessions && sessions[id].ifName != 0 {
        return true, highest, false;
      }
      var block;
      block, highest := GetTunnelIP(addrMin);
      if !created {
        return false, highest, false;
      }
      interfaces := interfaces[name := Interface(block, [], id)];
      if id !in sessions {
        return false, highest, true;
      }
      sessions := sessions[id := sessions[id].(ifName := name)];
      return true, highest, false;
    }

    /** The authentication of a connection, from the check of the password on. It is
        `done` unless no free ID is drawn; `draw` is the ID drawn, if one was needed. */
    method CommandAuthentication(r: Request, draws: seq<u32>, addrMin: u32)
      returns (done: bool, draw: u32, highest: u32, panics: bool)
      requires forall i :: 0 <= i < |draws| ==> draws[i] != 0
      modifies this
      ensures !done ==>
        && r.sessionID == 0 && Value() == WithoutClient(old(Value()), r.client)
        && forall i :: 0 <= i < |draws| ==> draws[i] in sessions
      ensures panics <==> done && AuthenticationPanics(old(Value()), r.(draw := draw))
      ensures Consistent(old(Value())) ==> !panics
      ensures done ==>
        var request, block := r.(draw := draw), BlockAfter(addrMin, highest);
        && Value() == (if panics then AtPanic(old(Value()), request, block) else AfterAuthentication(old(Value()), request, block))
        && (Creates(old(Value()), request) ==> IsHighest(SessionFor(old(Value()), request).0.interfaces, highest))
    {
      var id: u32;
      done, draw, highest, panics := true, r.draw, 0, false;
      ghost var dropped := WithoutClient(Value(), r.client);
      hide IsHighest, BlockAfter, WithConnection;
      if r.sessionID == 0 {
        var _, astray := DropSessionByClientID(r.client);
        if astray {
          return true, draw, highest, true;
        }
        assert !Astray(old(Value()), r.client);
        var session := CreateSession(r.client, r.user, draws);
        if session.None? {
          return false, draw, 0, false;
        }
        id := session.value;
        draw := id;
        assert Value() == WithSession(dropped, r.client, r.user, draw);
        if Consistent(old(Value())) { ConsistentNeverPanics(old(Value()), r.(draw := draw)); }
      } else {
        if !Checked(Value(), r.sessionID, r.client, r.user) {
          return;
        }
        id := r.sessionID;
      }
      ghost var request := r.(draw := draw);
      assert SessionFor(old(Value()), request) == (Value(), Some(id));
      assert Consistent(old(Value())) ==> !AuthenticationPanics(old(Value()), request);
      hide SessionFor, WithoutClient, WithSession, Consistent;
      var ok;
      ok, highest, panics := CreateInterface(id, r.name, r.created, addrMin);
      if panics || !ok {
        return;
      }
      if sessions[id].ifName !in interfaces {
        return true, draw, highest, true;
      }
      AddConnection(r.conn.key, ServerConn(sessions[id].ifName, id, r.conn.protocol, r.conn.port));
    }

    method AddConnection(key: nat, sc: ServerConn)
      modifies this
      ensures Value() == WithConnection(old(Value()), key, sc)
    {
      ghost var all := connections;
      DisplacingEnds(all, sc);
      hide Displacing;
      var keys := connections.Keys;
      while keys != {}
        invariant keys <= all.Keys && connections == Displacing(all, keys, sc)
        invariant sessions == old(sessions) && client2session == old(client2session) && interfaces == old(interfaces)
        decreases |keys|
      {
        var k :| k in keys;
        DisplacingNext(all, keys, k, sc);
        if SameSlot(connections[k], sc) {
          connections := connections - {k};
        }
        keys := keys - {k};
      }
      connections := connections[key := sc];
    }

    method AddInterfaceConnection(sc: ServerConn, conn: Conn) returns (ok: bool)
      modifies this`interfaces
      ensures ok <==> sc.ifName in old(interfaces)
      ensures interfaces == if !ok then old(interfaces) else
        var i := old(interfaces)[sc.ifName]; old(interfaces)[sc.ifName := i.(conns := Joined(i.conns, conn, sc))]
    {
      if sc.ifName !in interfaces {
        return false;
      }
      var ic := interfaces[sc.ifName];
      for i := 0 to |ic.conns|
        invariant interfaces == old(interfaces)
        invariant forall k :: 0 <= k < i ==> !Slot(ic.conns[k], sc)
      {
        if Slot(ic.conns[i], sc) {
          JoinedAt(ic.conns, conn, sc, i);
          interfaces := interfaces[sc.ifName := ic.(conns := ic.conns[i := conn])];
          return true;
        }
      }
      JoinedAt(ic.conns, conn, sc, |ic.conns|);
      interfaces := interfaces[sc.ifName := ic.(conns := ic.conns + [conn])];
      return true;
    }

    method CommandHandshake(conn: Conn) returns (ok: bool)
      modifies this
      ensures Value() == AfterHandshake(old(Value()), conn)
    {
      if conn.key !in connections {
        return false;
      }
      ok := AddInterfaceConnection(connections[conn.key], conn);
    }

    method IndexOf(conns: seq<Conn>, key: nat) returns (i: nat)
      ensures i <= |conns| && forall k :: 0 <= k < i ==> conns[k].key != key
      ensures i < |conns| ==> conns[i].key == key
    {
      i := 0;
      while i < |conns| && conns[i].key != key
        invariant i <= |conns| && forall k :: 0 <= k < i ==> conns[k].key != key
      {
        i := i + 1;
      }
    }

    method RemoveConnection(conn: Conn)
      modifies this
      ensures Value() == AfterDisconnect(old(Value()), conn)
    {
      if conn.key !in connections {
        return;
      }
      var c := connections[conn.key];
      connections := connections - {conn.key};
      if c.ifName != 0 && c.ifName in interfaces {
        var ic := interfaces[c.ifName];
        var i := IndexOf(ic.conns, conn.key);
        LeftAt(ic.conns, conn.key, i);
        hide Left;
        var rest := ic.conns;
        if i < |ic.conns| {
          rest := ic.conns[..i] + ic.conns[i + 1..];
          interfaces := interfaces[c.ifName := ic.(conns := rest)];
        }
        UnchangedOrGone(old(interfaces), c.ifName, rest);
        if |rest| == 0 {
          if conn.sessionID in sessions {
            client2session := client2session - {sessions[conn.sessionID].client};
          }
          sessions := sessions - {conn.sessionID};
          interfaces := interfaces - {c.ifName};
        }
      }
    }

    /** The connection that a packet read from an interface leaves by: a random one, or
        one that its endpoint picks. */
    method GetInterfaceConnection(name: nat, strategy: u8, endpoint: u64, random: nat) returns (r: Result<Conn, RouteError>)
      ensures r == Route(Value(), name, strategy, endpoint, random)
    {
      if name !in interfaces {
        return Err(InterfaceNotExists);
      }
      var length := |interfaces[name].conns|;
      if length == 0 {
        return Err(ConnectionNotExists);
      }
      if strategy == BY_CHANCE {
        return Ok(interfaces[name].conns[random % length]);
      } else if strategy == BY_HASH {
        return Ok(interfaces[name].conns[endpoint % length]);
      }
      return Err(NoStrategy);
    }
  }

  lemma UnchangedOrGone(m: map<nat, Interface>, name: nat, rest: seq<Conn>)
    requires name in m
    ensures rest == m[name].conns ==> m[name := m[name].(conns := rest)] == m
    ensures m[name := m[name].(conns := rest)] - {name} == m - {name}
  {
  }
}
