/**
 The server's tables on values: sessions, the session of every client, network
 interfaces with their address blocks, and connections, and what authentication,
 handshake, reset and disconnection make of them.

 Interface names, client and user names are numbers; 0 stands for the empty name.
 */
module Tables {
  import opened Bytes

  datatype Session = Session(ifName: nat, user: nat, client: nat)

  /** A connection as the network layer knows it. */
  datatype Conn = Conn(key: nat, sessionID: u32, protocol: u8, port: u16)

  /** What the server remembers of an authenticated connection. */
  datatype ServerConn = ServerConn(ifName: nat, sessionID: u32, protocol: u8, port: u16)

  /** An interface: the first of its four addresses, its connections and its session. */
  datatype Interface = Interface(block: u32, conns: seq<Conn>, sessionID: u32)

  datatype Server = Server(
    sessions: map<u32, Session>,
    clients: map<nat, u32>,
    interfaces: map<nat, Interface>,
    connections: map<nat, ServerConn>)

  const EMPTY: Server := Server(map[], map[], map[], map[])

  // ----- sessions

  function WithSession(t: Server, client: nat, user: nat, draw: u32): Server {
    if client in t.clients then t
    else t.(sessions := t.sessions[draw := Session(0, user, client)], clients := t.clients[client := draw])
  }

  /** A session without a live interface is not dropped. */
  function WithoutSession(t: Server, id: u32): Server {
    if id !in t.sessions || t.sessions[id].ifName !in t.interfaces then t
    else t.(sessions := t.sessions - {id}, clients := t.clients - {t.sessions[id].client},
            interfaces := t.interfaces - {t.sessions[id].ifName})
  }

  function WithoutClient(t: Server, client: nat): Server {
    if client in t.clients then WithoutSession(t, t.clients[client]) else t
  }

  predicate Checked(t: Server, id: u32, client: nat, user: nat) {
    id in t.sessions && t.sessions[id].client == client && t.sessions[id].user == user
  }

  // ----- interfaces

  /** The last address of a block, which belongs to the client's side. */
  function LastOf(block: u32): u32 {
    (block + 3) % 0x1_0000_0000
  }

  /** `m` is the highest last address in use, 0 when there is none. */
  ghost predicate IsHighest(interfaces: map<nat, Interface>, m: u32) {
    && (forall n :: n in interfaces ==> LastOf(interfaces[n].block) <= m)
    && (m == 0 || exists n :: n in interfaces && LastOf(interfaces[n].block) == m)
  }

  function BlockAfter(addrMin: u32, highest: u32): u32 {
    if highest == 0 then addrMin else (highest + 1) % 0x1_0000_0000
  }

  function WithInterface(t: Server, id: u32, name: nat, block: u32): Server
    requires id in t.sessions
  {
    if t.sessions[id].ifName != 0 then t
    else t.(interfaces := t.interfaces[name := Interface(block, [], id)],
            sessions := t.sessions[id := t.sessions[id].(ifName := name)])
  }

  // ----- connections

  predicate SameSlot(a: ServerConn, b: ServerConn) {
    a.sessionID == b.sessionID && a.protocol == b.protocol && a.port == b.port
  }

  /** A new connection displaces an older one of its session, protocol and port. */
  function WithConnection(t: Server, key: nat, sc: ServerConn): Server {
    t.(connections := (map k | k in t.connections && !SameSlot(t.connections[k], sc) :: t.connections[k])[key := sc])
  }

  /** Replaces the first connection of the same session, protocol and port, or adds one. */
  function Joined(conns: seq<Conn>, conn: Conn, sc: ServerConn): seq<Conn> {
    if conns == [] then [conn]
    else if SameSlot(ServerConn(0, conns[0].sessionID, conns[0].protocol, conns[0].port), sc) then [conn] + conns[1..]
    else [conns[0]] + Joined(conns[1..], conn, sc)
  }

  /** Removes the first connection with this key. */
  function Left(conns: seq<Conn>, key: nat): seq<Conn> {
    if conns == [] then [] else if conns[0].key == key then conns[1..] else [conns[0]] + Left(conns[1..], key)
  }

  /** The interface, if it is still there, that the connection was authenticated for. */
  predicate Reaches(t: Server, key: nat) {
    key in t.connections && t.connections[key].ifName != 0 && t.connections[key].ifName in t.interfaces
  }

  function AfterHandshake(t: Server, conn: Conn): Server {
    if conn.key in t.connections && t.connections[conn.key].ifName in t.interfaces then
      var sc := t.connections[conn.key];
      var i := t.interfaces[sc.ifName];
      t.(interfaces := t.interfaces[sc.ifName := i.(conns := Joined(i.conns, conn, sc))])
    else t
  }

  function AfterDisconnect(t: Server, conn: Conn): Server {
    if conn.key !in t.connections then t
    else if !Reaches(t, conn.key) then t.(connections := t.connections - {conn.key})
    else
      var name := t.connections[conn.key].ifName;
      var i := t.interfaces[name];
      var rest := Left(i.conns, conn.key);
      if rest != [] then
        t.(connections := t.connections - {conn.key}, interfaces := t.interfaces[name := i.(conns := rest)])
      else
        Server(t.sessions - {conn.sessionID},
               if conn.sessionID in t.sessions then t.clients - {t.sessions[conn.sessionID].client} else t.clients,
               t.interfaces - {name}, t.connections - {conn.key})
  }

  function AfterReset(t: Server, conn: Conn): Server {
    if conn.key in t.connections then WithoutSession(t, t.connections[conn.key].sessionID) else t
  }

  /** A request with session ID 0 asks for a new session; `created` says whether the
      operating system could make the interface. */
  datatype Request = Request(conn: Conn, client: nat, user: nat, sessionID: u32, draw: u32, name: nat, created: bool)

  /** The session the request ends up with, and the tables then. */
  function SessionFor(t: Server, r: Request): (Server, Option<u32>) {
    if r.sessionID == 0 then
      var next := WithSession(WithoutClient(t, r.client), r.client, r.user, r.draw);
      (next, if r.client in next.clients then Some(next.clients[r.client]) else None)
    else (t, if Checked(t, r.sessionID, r.client, r.user) then Some(r.sessionID) else None)
  }

  function AfterAuthentication(t: Server, r: Request, block: u32): Server {
    var (next, id) := SessionFor(t, r);
    if id.None? || id.value !in next.sessions || (next.sessions[id.value].ifName == 0 && !r.created) then next
    else
      var made := WithInterface(next, id.value, r.name, block);
      WithConnection(made, r.conn.key, ServerConn(made.sessions[id.value].ifName, id.value, r.conn.protocol, r.conn.port))
  }

  /** Whether the request makes a new interface. */
  predicate Creates(t: Server, r: Request) {
    var (next, id) := SessionFor(t, r);
    id.Some? && id.value in next.sessions && next.sessions[id.value].ifName == 0 && r.created
  }

  /** The client's session is missing, so that dropping it panics. */
  predicate Astray(t: Server, client: nat) {
    client in t.clients && t.clients[client] !in t.sessions
  }

  /** The authentication panics: the client's session is missing when it is to be dropped
      or given its interface, or the interface that the session names is. */
  predicate AuthenticationPanics(t: Server, r: Request) {
    var (next, id) := SessionFor(t, r);
    || (r.sessionID == 0 && Astray(t, r.client))
    || (id.Some? &&
          if id.value !in next.sessions then r.created
          else next.sessions[id.value].ifName != 0 && next.sessions[id.value].ifName !in next.interfaces)
  }

  /** The tables when that happens. */
  function AtPanic(t: Server, r: Request, block: u32): Server {
    var (next, id) := SessionFor(t, r);
    if (r.sessionID == 0 && Astray(t, r.client)) || id.None? || id.value in next.sessions then next
    else next.(interfaces := next.interfaces[r.name := Interface(block, [], id.value)])
  }

  // ----- routing

  const BY_CHANCE: u8 := 1
  const BY_HASH: u8 := 2

  datatype RouteError = InterfaceNotExists | ConnectionNotExists | NoStrategy

  /** The connection a packet read from the interface is sent by. */
  function Route(t: Server, name: nat, strategy: u8, endpoint: u64, random: nat): Result<Conn, RouteError> {
    if name !in t.interfaces then Err(InterfaceNotExists)
    else
      var conns := t.interfaces[name].conns;
      if conns == [] then Err(ConnectionNotExists)
      else if strategy == BY_CHANCE then Ok(conns[random % |conns|])
      else if strategy == BY_HASH then Ok(conns[endpoint % |conns|])
      else Err(NoStrategy)
  }

  // ----- consistency

  /** Clients and sessions are mutually inverse, and no session is 0. */
  ghost predicate Paired(t: Server) {
    && (forall c :: c in t.clients ==> t.clients[c] in t.sessions && t.sessions[t.clients[c]].client == c)
    && (forall s :: s in t.sessions ==>
          s != 0 && t.sessions[s].client in t.clients && t.clients[t.sessions[s].client] == s)
  }

  /** Besides, sessions with an interface correspond one to one with the interfaces. */
  ghost predicate Consistent(t: Server) {
    && Paired(t)
    && (forall s :: s in t.sessions && t.sessions[s].ifName != 0 ==>
          t.sessions[s].ifName in t.interfaces && t.interfaces[t.sessions[s].ifName].sessionID == s)
    && (forall n :: n in t.interfaces ==>
          n != 0 && t.interfaces[n].sessionID in t.sessions && t.sessions[t.interfaces[n].sessionID].ifName == n)
  }

  /** Whatever a remembered connection reaches belongs to its own session. */
  ghost predicate Attached(t: Server) {
    forall k :: k in t.connections && t.connections[k].ifName in t.interfaces ==>
      t.interfaces[t.connections[k].ifName].sessionID == t.connections[k].sessionID
  }

  lemma DropKeepsConsistent(t: Server, id: u32)
    requires Consistent(t)
    ensures Consistent(WithoutSession(t, id))
    ensures Attached(t) ==> Attached(WithoutSession(t, id))
  {
  }

  lemma CreateKeepsConsistent(t: Server, client: nat, user: nat, draw: u32)
    requires Consistent(t) && (client !in t.clients ==> draw != 0 && draw !in t.sessions)
    ensures var next := WithSession(t, client, user, draw);
      Consistent(next) && client in next.clients && (Attached(t) ==> Attached(next))
  {
  }

  /** A new interface keeps the tables consistent exactly when its name is nonempty
      and not that of a live interface. */
  lemma InterfaceKeepsConsistentIff(t: Server, id: u32, name: nat, block: u32)
    requires Consistent(t) && id in t.sessions && t.sessions[id].ifName == 0
    ensures Consistent(WithInterface(t, id, name, block)) <==> name != 0 && name !in t.interfaces
  {
    var next := WithInterface(t, id, name, block);
    if name in t.interfaces {
      var other := t.interfaces[name].sessionID;
      assert other in next.sessions && next.sessions[other].ifName == name && other != id;
    } else if name == 0 {
      assert 0 in next.interfaces;
    }
  }

  /** The connection whose leaving would take away another session's interface. */
  ghost predicate Orphans(t: Server, conn: Conn) {
    && Reaches(t, conn.key)
    && var i := t.interfaces[t.connections[conn.key].ifName];
    && Left(i.conns, conn.key) == [] && i.sessionID != conn.sessionID
  }

  /** Disconnection keeps the tables consistent exactly when the interface that is left
      without connections belongs to the session the connection names. */
  lemma DisconnectKeepsConsistentIff(t: Server, conn: Conn)
    requires Consistent(t)
    ensures Consistent(AfterDisconnect(t, conn)) <==> !Orphans(t, conn)
  {
    if Orphans(t, conn) {
      var name := t.connections[conn.key].ifName;
      var owner := t.interfaces[name].sessionID;
      var next := AfterDisconnect(t, conn);
      assert owner in next.sessions && next.sessions[owner].ifName == name && name !in next.interfaces;
    }
  }

  lemma HandshakeKeepsConsistent(t: Server, conn: Conn)
    requires Consistent(t)
    ensures Consistent(AfterHandshake(t, conn)) && (Attached(t) ==> Attached(AfterHandshake(t, conn)))
  {
  }

  /** With consistent tables authentication never panics. */
  lemma ConsistentNeverPanics(t: Server, r: Request)
    requires Consistent(t)
    requires r.client !in WithoutClient(t, r.client).clients ==> r.draw != 0 && r.draw !in WithoutClient(t, r.client).sessions
    ensures !AuthenticationPanics(t, r)
  {
    if r.client in t.clients { DropKeepsConsistent(t, t.clients[r.client]); }
    CreateKeepsConsistent(WithoutClient(t, r.client), r.client, r.user, r.draw);
  }

  /** As long as clients and sessions belong together, it panics exactly when the session it
      is to use, or would have to drop, names an interface that is not there; the tables are
      then as they were. */
  lemma PanicsIff(t: Server, r: Request, block: u32)
    requires Paired(t)
    requires r.client !in WithoutClient(t, r.client).clients ==> r.draw != 0 && r.draw !in WithoutClient(t, r.client).sessions
    ensures AuthenticationPanics(t, r) <==>
      exists s :: s in t.sessions && t.sessions[s].client == r.client && t.sessions[s].ifName != 0
        && t.sessions[s].ifName !in t.interfaces
        && (r.sessionID == 0 || (r.sessionID == s && t.sessions[s].user == r.user))
    ensures AuthenticationPanics(t, r) ==> AtPanic(t, r, block) == t
  {
    if r.sessionID == 0 && r.client in t.clients {
      var s := t.clients[r.client];
      assert s in t.sessions && t.sessions[s].client == r.client;
    } else if r.sessionID in t.sessions {
      assert t.sessions[r.sessionID].client == r.client || !AuthenticationPanics(t, r);
    }
  }

  // ----- who may use a session

  /** A request for a session that is not there, or is another client's or user's, changes
      nothing and does not panic. */
  lemma StrangersAreRefused(t: Server, r: Request, block: u32)
    requires r.sessionID != 0
    requires r.sessionID in t.sessions ==> t.sessions[r.sessionID].client != r.client || t.sessions[r.sessionID].user != r.user
    ensures AfterAuthentication(t, r, block) == t && !AuthenticationPanics(t, r)
  {
  }

  /** A client and user that ask for their own session get their connection entered for
      it, and for the interface it has or now gets. */
  lemma OwnersAreAdmitted(t: Server, r: Request, block: u32)
    requires r.sessionID != 0 && r.sessionID in t.sessions
    requires t.sessions[r.sessionID].client == r.client && t.sessions[r.sessionID].user == r.user
    requires t.sessions[r.sessionID].ifName != 0 || r.created
    ensures var next := AfterAuthentication(t, r, block);
      && r.conn.key in next.connections
      && next.connections[r.conn.key]
         == ServerConn(if t.sessions[r.sessionID].ifName != 0 then t.sessions[r.sessionID].ifName else r.name,
                       r.sessionID, r.conn.protocol, r.conn.port)
  {
  }

  /** The client asks for a new session, and its old one, made for another user, has no
      interface by which it could be dropped. */
  predicate TakesOver(t: Server, r: Request) {
    && r.sessionID == 0 && r.client in t.clients && t.clients[r.client] in t.sessions
    && var s := t.sessions[t.clients[r.client]];
    s.ifName !in t.interfaces && s.user != r.user
  }

  /** Asking for a new session, a client that has none, or one with an interface, gets the
      ID drawn, made out to it and its user, and the old one is gone; one whose session
      has no interface keeps that. */
  lemma NewSessionIsNew(t: Server, r: Request, block: u32)
    requires Consistent(t) && r.sessionID == 0 && r.draw !in WithoutClient(t, r.client).sessions && r.draw != 0
    ensures var next := AfterAuthentication(t, r, block);
      if r.client in t.clients && t.sessions[t.clients[r.client]].ifName !in t.interfaces then
        next.clients == t.clients && next.sessions.Keys == t.sessions.Keys
      else
        && r.client in next.clients && next.clients[r.client] == r.draw
        && next.sessions[r.draw].client == r.client && next.sessions[r.draw].user == r.user
        && (r.client in t.clients && t.clients[r.client] != r.draw ==> t.clients[r.client] !in next.sessions)
  {
    var (next, id) := SessionFor(t, r);
    if r.client in t.clients { DropKeepsConsistent(t, t.clients[r.client]); }
    hide WithConnection;
  }

  /** A new session whose interface could be made has it, with the given block and nothing
      on it yet, and the connection is entered for both. */
  lemma MadeIsEntered(t: Server, r: Request, block: u32)
    requires Consistent(t) && r.sessionID == 0 && r.created && r.draw !in WithoutClient(t, r.client).sessions && r.draw != 0
    ensures var next := AfterAuthentication(t, r, block);
      && r.client in next.clients && r.conn.key in next.connections && r.name in next.interfaces
      && var id := next.clients[r.client];
      && next.connections[r.conn.key] == ServerConn(r.name, id, r.conn.protocol, r.conn.port)
      && next.interfaces[r.name] == Interface(block, [], id)
      && id in next.sessions && next.sessions[id].ifName == r.name
  {
    if r.client in t.clients { DropKeepsConsistent(t, t.clients[r.client]); }
    CreateKeepsConsistent(WithoutClient(t, r.client), r.client, r.user, r.draw);
  }

  lemma WithoutInterface(t: Server, r: Request)
    requires Consistent(t) && r.draw !in WithoutClient(t, r.client).sessions && r.draw != 0
    requires r.sessionID != 0 && r.sessionID in t.sessions ==> t.sessions[r.sessionID].ifName == 0
    ensures var (next, id) := SessionFor(t, r);
      && (id.Some? ==> id.value in next.sessions && next.sessions[id.value].ifName == 0)
      && next.connections == t.connections
      && forall n :: n in next.interfaces ==> n in t.interfaces && next.interfaces[n] == t.interfaces[n]
  {
    if r.client in t.clients { DropKeepsConsistent(t, t.clients[r.client]); }
  }

  /** When it could not be made, a session without one gets neither interface nor connection. */
  lemma UnmadeEntersNothing(t: Server, r: Request, block: u32)
    requires Consistent(t) && !r.created && r.draw !in WithoutClient(t, r.client).sessions && r.draw != 0
    requires r.sessionID != 0 && r.sessionID in t.sessions ==> t.sessions[r.sessionID].ifName == 0
    ensures var next := AfterAuthentication(t, r, block);
      next.connections == t.connections && forall n :: n in next.interfaces ==> n in t.interfaces && next.interfaces[n] == t.interfaces[n]
  {
    WithoutInterface(t, r);
    var (next, id) := SessionFor(t, r);
    hide SessionFor, Consistent, WithoutClient, WithConnection, WithInterface;
    assert AfterAuthentication(t, r, block) == next;
  }

  // ----- what goes, and what stays

  /** Every entry of a session is gone, and everything of the others is as it was. */
  ghost predicate GoneFor(t: Server, next: Server, id: u32) {
    && (forall s :: s in next.sessions <==> s in t.sessions && s != id)
    && (forall s :: s in next.sessions ==> next.sessions[s] == t.sessions[s])
    && (forall c :: c in next.clients <==> c in t.clients && t.clients[c] != id)
    && (forall c :: c in next.clients ==> next.clients[c] == t.clients[c])
    && (forall n :: n in next.interfaces <==> n in t.interfaces && t.interfaces[n].sessionID != id)
    && (forall n :: n in next.interfaces ==> next.interfaces[n] == t.interfaces[n])
  }

  /** Dropping a session that has its interface takes away all that is the session's,
      except the connections, and nothing else; any other is not dropped. */
  lemma DropIsExact(t: Server, id: u32)
    requires Consistent(t)
    ensures var next := WithoutSession(t, id);
      if id in t.sessions && t.sessions[id].ifName != 0 then GoneFor(t, next, id) && next.connections == t.connections
      else next == t
  {
    assert id in t.sessions && t.sessions[id].ifName == 0 ==> 0 !in t.interfaces;
  }

  /** A reset ends the session the connection was authenticated for, whatever session the
      connection itself names. */
  lemma ResetEnds(t: Server, conn: Conn)
    requires Consistent(t)
    ensures var next := AfterReset(t, conn);
      if conn.key in t.connections && t.connections[conn.key].sessionID in t.sessions
         && t.sessions[t.connections[conn.key].sessionID].ifName != 0
      then GoneFor(t, next, t.connections[conn.key].sessionID) && next.connections == t.connections
      else next == t
  {
    if conn.key in t.connections { DropIsExact(t, t.connections[conn.key].sessionID); }
  }

  lemma {:induction false} JoinedKeeps(conns: seq<Conn>, conn: Conn, sc: ServerConn)
    ensures conn in Joined(conns, conn, sc)
    ensures forall c :: c in conns ==>
      (c.sessionID == sc.sessionID && c.protocol == sc.protocol && c.port == sc.port) || c in Joined(conns, conn, sc)
    ensures |conns| <= |Joined(conns, conn, sc)| <= |conns| + 1
  {
    if conns != [] {
      JoinedKeeps(conns[1..], conn, sc);
      assert conns == [conns[0]] + conns[1..];
    }
  }

  /** A handshake puts the connection at the interface it was authenticated for, and leaves
      there all others of another session, protocol or port. */
  lemma HandshakeJoins(t: Server, conn: Conn)
    requires Reaches(t, conn.key)
    ensures var next, sc := AfterHandshake(t, conn), t.connections[conn.key];
      && next.sessions == t.sessions && next.clients == t.clients && next.connections == t.connections
      && next.interfaces.Keys == t.interfaces.Keys
      && (forall n :: n in t.interfaces && n != sc.ifName ==> next.interfaces[n] == t.interfaces[n])
      && conn in next.interfaces[sc.ifName].conns
      && (forall c :: c in t.interfaces[sc.ifName].conns ==>
            || (c.sessionID == sc.sessionID && c.protocol == sc.protocol && c.port == sc.port)
            || c in next.interfaces[sc.ifName].conns)
      && next.interfaces[sc.ifName].block == t.interfaces[sc.ifName].block
      && next.interfaces[sc.ifName].sessionID == t.interfaces[sc.ifName].sessionID
  {
    JoinedKeeps(t.interfaces[t.connections[conn.key].ifName].conns, conn, t.connections[conn.key]);
    hide Joined;
  }

  lemma {:induction false} LeftKeeps(conns: seq<Conn>, key: nat)
    ensures forall c :: c in conns && c.key != key ==> c in Left(conns, key)
    ensures Left(conns, key) == [] <==> conns == [] || (|conns| == 1 && conns[0].key == key)
    ensures |Left(conns, key)| == |conns| - if exists c :: c in conns && c.key == key then 1 else 0
  {
    if conns != [] {
      LeftKeeps(conns[1..], key);
      assert conns == [conns[0]] + conns[1..];
    }
  }

  /** A disconnection takes away the connection, and with the last one of its interface the
      session; all other connections stay, in the tables and at the interface. */
  lemma DisconnectTakesOne(t: Server, conn: Conn)
    requires Consistent(t) && Attached(t)
    requires conn.key in t.connections ==> t.connections[conn.key].sessionID == conn.sessionID
    ensures var next := AfterDisconnect(t, conn);
      && (forall k :: k in next.connections <==> k in t.connections && k != conn.key)
      && (forall k :: k in next.connections ==> next.connections[k] == t.connections[k])
      && if !Reaches(t, conn.key) then next.sessions == t.sessions && next.clients == t.clients && next.interfaces == t.interfaces
         else
           var name := t.connections[conn.key].ifName;
           var conns := t.interfaces[name].conns;
           if conns == [] || (|conns| == 1 && conns[0].key == conn.key) then GoneFor(t, next, conn.sessionID)
           else
             && next.sessions == t.sessions && next.clients == t.clients && next.interfaces.Keys == t.interfaces.Keys
             && (forall n :: n in t.interfaces && n != name ==> next.interfaces[n] == t.interfaces[n])
             && next.interfaces[name].block == t.interfaces[name].block
             && next.interfaces[name].sessionID == t.interfaces[name].sessionID
             && forall c :: c in conns && c.key != conn.key ==> c in next.interfaces[name].conns
  {
    if Reaches(t, conn.key) {
      LeftKeeps(t.interfaces[t.connections[conn.key].ifName].conns, conn.key);
    }
    hide Left;
  }

  /** A connection that is entered displaces those of its session, protocol and port, and
      no other. */
  lemma EnteredDisplaces(t: Server, key: nat, sc: ServerConn, k: nat)
    ensures var next := WithConnection(t, key, sc);
      && next.connections[key] == sc
      && (k != key ==>
            (k in next.connections <==>
             && k in t.connections
             && !(&& t.connections[k].sessionID == sc.sessionID && t.connections[k].protocol == sc.protocol
                  && t.connections[k].port == sc.port)))
      && (k != key && k in next.connections ==> next.connections[k] == t.connections[k])
      && next.sessions == t.sessions && next.clients == t.clients && next.interfaces == t.interfaces
  {
  }

  /** By hash, which connection a packet takes depends on its endpoint, whatever is drawn,
      by chance on the draw, whatever the endpoint; either way all of them take turns. */
  lemma StrategiesPick(t: Server, name: nat, turn: nat, endpoint: u64, other: nat)
    requires name in t.interfaces && t.interfaces[name].conns != [] && turn < 0x1_0000_0000_0000_0000
    ensures var conns := t.interfaces[name].conns;
      && Route(t, name, 2, turn, other) == Ok(conns[turn % |conns|])
      && Route(t, name, 1, endpoint, turn) == Ok(conns[turn % |conns|])
  {
  }
}
