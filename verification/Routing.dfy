/**
 Which connection a packet leaves by, over whole runs of the server's tables: always one
 of the session that owns the interface, as long as a handshake carries its own session.
 */
module Routing {
  import opened Bytes
  import opened Tables
  import opened TableRuns

  /** Every connection of an interface carries the session of the interface. */
  ghost predicate Routed(t: Server) {
    forall n, c :: n in t.interfaces && c in t.interfaces[n].conns ==> c.sessionID == t.interfaces[n].sessionID
  }

  /** Protocol and port of a connection are part of its key. */
  type Shape = nat -> (u8, u16)

  predicate Shaped(shape: Shape, conn: Conn) {
    shape(conn.key) == (conn.protocol, conn.port)
  }

  ghost predicate AllShaped(shape: Shape, conns: seq<Conn>) {
    forall c :: c in conns ==> Shaped(shape, c)
  }

  predicate SameEnd(a: Conn, b: Conn) {
    a.protocol == b.protocol && a.port == b.port
  }

  /** No two connections of an interface share protocol and port. */
  ghost predicate Distinct(conns: seq<Conn>) {
    forall i, j :: 0 <= i < j < |conns| ==> !SameEnd(conns[i], conns[j])
  }

  ghost predicate Orderly(shape: Shape, t: Server) {
    && Routed(t)
    && (forall n :: n in t.interfaces ==> AllShaped(shape, t.interfaces[n].conns) && Distinct(t.interfaces[n].conns))
    && (forall k :: k in t.connections ==> shape(k) == (t.connections[k].protocol, t.connections[k].port))
    && (forall k, l :: k in t.connections && l in t.connections && k != l ==> !SameSlot(t.connections[k], t.connections[l]))
  }

  // ----- joining and leaving

  lemma {:induction false} JoinedHas(conns: seq<Conn>, conn: Conn, sc: ServerConn)
    ensures conn in Joined(conns, conn, sc)
    ensures forall c :: c in Joined(conns, conn, sc) ==> c in conns || c == conn
  {
    if conns != [] {
      JoinedHas(conns[1..], conn, sc);
      assert conns == [conns[0]] + conns[1..];
    }
  }

  ghost predicate AllOf(conns: seq<Conn>, session: u32) {
    forall i :: 0 <= i < |conns| ==> conns[i].sessionID == session
  }

  lemma ConsIsDistinct(c: Conn, rest: seq<Conn>)
    requires Distinct(rest) && forall x :: x in rest ==> !SameEnd(c, x)
    ensures Distinct([c] + rest)
  {
  }

  /** A connection that joins takes the place of the one at its end, if there is one. */
  lemma {:induction false} JoinedIsDistinct(conns: seq<Conn>, conn: Conn, sc: ServerConn)
    requires Distinct(conns) && AllOf(conns, sc.sessionID)
    requires conn.protocol == sc.protocol && conn.port == sc.port
    ensures Distinct(Joined(conns, conn, sc))
    ensures forall c :: c in Joined(conns, conn, sc) ==> c == conn || (c in conns && !SameEnd(c, conn))
  {
    if conns != [] {
      var rest := conns[1..];
      assert conns == [conns[0]] + rest;
      assert forall i :: 0 <= i < |rest| ==> rest[i] == conns[i + 1];
      JoinedIsDistinct(rest, conn, sc);
      var matches := SameSlot(ServerConn(0, conns[0].sessionID, conns[0].protocol, conns[0].port), sc);
      assert matches <==> SameEnd(conns[0], conn);
      assert forall x :: x in rest ==> !SameEnd(conns[0], x);
      if matches { ConsIsDistinct(conn, rest); } else { ConsIsDistinct(conns[0], Joined(rest, conn, sc)); }
    }
  }

  lemma {:induction false} LeftIsPart(conns: seq<Conn>, key: nat)
    ensures forall c :: c in Left(conns, key) ==> c in conns
    ensures Distinct(conns) ==> Distinct(Left(conns, key))
  {
    if conns != [] {
      var rest := conns[1..];
      assert conns == [conns[0]] + rest;
      assert forall i :: 0 <= i < |rest| ==> rest[i] == conns[i + 1];
      LeftIsPart(rest, key);
      if Distinct(conns) && conns[0].key != key {
        assert forall x :: x in rest ==> !SameEnd(conns[0], x);
        ConsIsDistinct(conns[0], Left(rest, key));
      }
    }
  }

  /** Where ends are distinct and part of the key, none with the key is left. */
  lemma {:induction false} LeftIsGone(shape: Shape, conns: seq<Conn>, key: nat)
    requires Distinct(conns) && AllShaped(shape, conns)
    ensures forall c :: c in Left(conns, key) ==> c.key != key
  {
    if conns != [] {
      var rest := conns[1..];
      assert conns == [conns[0]] + rest;
      assert forall i :: 0 <= i < |rest| ==> rest[i] == conns[i + 1];
      if conns[0].key == key {
        forall c | c in rest ensures c.key != key {
          assert Shaped(shape, conns[0]);
          assert !SameEnd(conns[0], c) && Shaped(shape, c);
        }
      } else {
        LeftIsGone(shape, rest, key);
      }
    }
  }

  // ----- step by step

  /** `fewer` has no interface, connection or remembered connection that `more` has not. */
  ghost predicate Within(fewer: Server, more: Server) {
    && (forall n :: n in fewer.interfaces ==> n in more.interfaces && fewer.interfaces[n] == more.interfaces[n])
    && (forall k :: k in fewer.connections ==> k in more.connections && fewer.connections[k] == more.connections[k])
  }

  lemma WithinIsOrderly(shape: Shape, fewer: Server, more: Server)
    requires Orderly(shape, more) && Within(fewer, more)
    ensures Orderly(shape, fewer)
  {
  }

  lemma InterfaceKeepsOrderly(shape: Shape, t: Server, id: u32, name: nat, block: u32)
    requires Orderly(shape, t) && id in t.sessions
    ensures Orderly(shape, WithInterface(t, id, name, block))
  {
  }

  lemma ConnectionKeepsOrderly(shape: Shape, t: Server, key: nat, sc: ServerConn)
    requires Orderly(shape, t) && shape(key) == (sc.protocol, sc.port)
    ensures Orderly(shape, WithConnection(t, key, sc))
  {
  }

  lemma SessionIsWithin(t: Server, r: Request)
    ensures Within(SessionFor(t, r).0, t)
    ensures SessionFor(t, r).1.Some? && r.sessionID != 0 ==> SessionFor(t, r).1.value in t.sessions
  {
  }

  lemma AuthenticationKeepsOrderly(shape: Shape, t: Server, r: Request, block: u32)
    requires Orderly(shape, t) && Shaped(shape, r.conn)
    ensures Orderly(shape, AfterAuthentication(t, r, block))
  {
    SessionIsWithin(t, r);
    var (next, id) := SessionFor(t, r);
    hide SessionFor, Within, Orderly;
    WithinIsOrderly(shape, next, t);
    if id.Some? && id.value in next.sessions && !(next.sessions[id.value].ifName == 0 && !r.created) {
      InterfaceKeepsOrderly(shape, next, id.value, r.name, block);
      var made := WithInterface(next, id.value, r.name, block);
      ConnectionKeepsOrderly(shape, made, r.conn.key,
        ServerConn(made.sessions[id.value].ifName, id.value, r.conn.protocol, r.conn.port));
    }
  }

  /** A handshake in which the connection gives another session than it was
      authenticated for, and which reaches an interface. */
  ghost predicate Misroutes(t: Server, conn: Conn) {
    && conn.key in t.connections && t.connections[conn.key].ifName in t.interfaces
    && conn.sessionID != t.connections[conn.key].sessionID
  }

  /** A handshake keeps packets in their session exactly when it does not misroute. */
  lemma HandshakeKeepsRoutedIff(t: Server, conn: Conn)
    requires Routed(t) && Attached(t)
    ensures Routed(AfterHandshake(t, conn)) <==> !Misroutes(t, conn)
  {
    if conn.key in t.connections && t.connections[conn.key].ifName in t.interfaces {
      var sc := t.connections[conn.key];
      JoinedHas(t.interfaces[sc.ifName].conns, conn, sc);
      var next := AfterHandshake(t, conn);
      assert conn in next.interfaces[sc.ifName].conns;
    }
  }

  lemma JoiningKeeps(shape: Shape, i: Interface, conn: Conn, sc: ServerConn)
    requires AllShaped(shape, i.conns) && Distinct(i.conns)
    requires forall c :: c in i.conns ==> c.sessionID == sc.sessionID
    requires Shaped(shape, conn) && shape(conn.key) == (sc.protocol, sc.port)
    ensures AllShaped(shape, Joined(i.conns, conn, sc)) && Distinct(Joined(i.conns, conn, sc))
  {
    JoinedHas(i.conns, conn, sc);
    JoinedIsDistinct(i.conns, conn, sc);
  }

  lemma HandshakeKeepsOrderly(shape: Shape, t: Server, conn: Conn)
    requires Orderly(shape, t) && Attached(t) && Shaped(shape, conn) && !Misroutes(t, conn)
    ensures Orderly(shape, AfterHandshake(t, conn))
  {
    HandshakeKeepsRoutedIff(t, conn);
    if conn.key in t.connections && t.connections[conn.key].ifName in t.interfaces {
      var sc := t.connections[conn.key];
      JoiningKeeps(shape, t.interfaces[sc.ifName], conn, sc);
    }
    hide Routed, AllShaped, Distinct, Joined, SameSlot;
  }

  lemma DisconnectKeepsOrderly(shape: Shape, t: Server, conn: Conn)
    requires Orderly(shape, t)
    ensures Orderly(shape, AfterDisconnect(t, conn))
  {
    if Reaches(t, conn.key) {
      LeftIsPart(t.interfaces[t.connections[conn.key].ifName].conns, conn.key);
    }
    hide Left, Distinct, Shaped;
  }

  // ----- whole runs

  /** What the network layer sees to: connections show their protocol and port in their
      key, and a handshake carries the session the connection was authenticated for. */
  ghost predicate Honest(shape: Shape, t: Server, step: Step) {
    match step
    case Authenticate(r, _) => Shaped(shape, r.conn)
    case Handshake(conn) => Shaped(shape, conn) && !Misroutes(t, conn)
    case _ => true
  }

  ghost predicate HonestRun(addrMin: u32, shape: Shape, steps: seq<Step>) {
    steps != [] ==>
      var before := steps[..|steps| - 1];
      HonestRun(addrMin, shape, before) && Honest(shape, After(addrMin, before).server, steps[|steps| - 1])
  }

  lemma ResetIsWithin(t: Server, conn: Conn)
    ensures Within(AfterReset(t, conn), t)
  {
  }

  lemma StepKeepsOrderly(addrMin: u32, shape: Shape, run: Run, step: Step)
    requires Orderly(shape, run.server) && Attached(run.server) && Honest(shape, run.server, step)
    ensures Orderly(shape, Next(addrMin, run, step).server)
  {
    var t := run.server;
    hide Orderly, Attached, Misroutes, AfterAuthentication, AfterHandshake, AfterDisconnect, AfterReset, Within;
    match step {
      case Authenticate(r, highest) => AuthenticationKeepsOrderly(shape, t, r, BlockAfter(addrMin, highest));
      case Handshake(conn) => HandshakeKeepsOrderly(shape, t, conn);
      case Disconnect(conn) => DisconnectKeepsOrderly(shape, t, conn);
      case Reset(conn) =>
        ResetIsWithin(t, conn);
        WithinIsOrderly(shape, AfterReset(t, conn), t);
    }
  }

  lemma {:induction false} AlwaysOrderly(addrMin: u32, shape: Shape, steps: seq<Step>)
    requires HonestRun(addrMin, shape, steps)
    ensures Orderly(shape, After(addrMin, steps).server)
  {
    if steps != [] {
      var before, step := steps[..|steps| - 1], steps[|steps| - 1];
      AlwaysOrderly(addrMin, shape, before);
      AlwaysConsistent(addrMin, before);
      hide Orderly, Next, Consistent, Attached, Honest, Enabled;
      if Enabled(After(addrMin, before).server, step) {
        StepKeepsOrderly(addrMin, shape, After(addrMin, before), step);
      }
    }
  }

  /** Over every run, whatever strategy picks the connection: a packet read from an
      interface leaves by a connection of the session that owns the interface. */
  lemma PacketsStayInTheirSession(addrMin: u32, shape: Shape, steps: seq<Step>, name: nat, strategy: u8, endpoint: u64, random: nat)
    requires HonestRun(addrMin, shape, steps)
    requires Route(After(addrMin, steps).server, name, strategy, endpoint, random).Ok?
    ensures var t := After(addrMin, steps).server;
      var conn := Route(t, name, strategy, endpoint, random).value;
      conn.sessionID in t.sessions && t.sessions[conn.sessionID].ifName == name
  {
    AlwaysOrderly(addrMin, shape, steps);
    AlwaysConsistent(addrMin, steps);
    hide After;
  }

  // ----- connections that went away

  /** Some draw, endpoint or strategy picks a connection with this key for the interface. */
  ghost predicate CanBePicked(t: Server, name: nat, key: nat) {
    exists strategy, endpoint, random ::
      Route(t, name, strategy, endpoint, random).Ok? && Route(t, name, strategy, endpoint, random).value.key == key
  }

  lemma PickedIsMember(t: Server, name: nat, strategy: u8, endpoint: u64, random: nat)
    requires Route(t, name, strategy, endpoint, random).Ok?
    ensures name in t.interfaces && Route(t, name, strategy, endpoint, random).value in t.interfaces[name].conns
  {
  }

  lemma MemberIsPicked(t: Server, name: nat, i: nat)
    requires name in t.interfaces && i < |t.interfaces[name].conns|
    ensures Route(t, name, BY_CHANCE, 0, i) == Ok(t.interfaces[name].conns[i])
  {
  }

  lemma PickedIff(t: Server, name: nat, key: nat)
    ensures CanBePicked(t, name, key) <==> name in t.interfaces && exists c :: c in t.interfaces[name].conns && c.key == key
  {
    hide Route;
    if CanBePicked(t, name, key) {
      var strategy, endpoint, random :|
        Route(t, name, strategy, endpoint, random).Ok? && Route(t, name, strategy, endpoint, random).value.key == key;
      PickedIsMember(t, name, strategy, endpoint, random);
    }
    if name in t.interfaces && exists c :: c in t.interfaces[name].conns && c.key == key {
      var i :| 0 <= i < |t.interfaces[name].conns| && t.interfaces[name].conns[i].key == key;
      MemberIsPicked(t, name, i);
    }
  }

  /** A connection that went away can still be picked for an interface exactly when it
      was among the interface's connections and was no longer remembered as reaching it:
      a newer one of its session, protocol and port had displaced it, or it had been
      authenticated anew for another interface. */
  lemma GoneIsPickedIff(shape: Shape, t: Server, conn: Conn, name: nat)
    requires Orderly(shape, t)
    ensures CanBePicked(AfterDisconnect(t, conn), name, conn.key)
      <==> (CanBePicked(t, name, conn.key) && !(Reaches(t, conn.key) && t.connections[conn.key].ifName == name))
  {
    PickedIff(t, name, conn.key);
    PickedIff(AfterDisconnect(t, conn), name, conn.key);
    if Reaches(t, conn.key) && t.connections[conn.key].ifName == name {
      LeftIsGone(shape, t.interfaces[name].conns, conn.key);
    }
    hide CanBePicked, Left, Orderly;
  }

  /** The same over every run. */
  lemma GoneIsRoutedIff(addrMin: u32, shape: Shape, steps: seq<Step>, conn: Conn, name: nat)
    requires HonestRun(addrMin, shape, steps)
    ensures var t := After(addrMin, steps).server;
      CanBePicked(AfterDisconnect(t, conn), name, conn.key)
      <==> (CanBePicked(t, name, conn.key) && !(Reaches(t, conn.key) && t.connections[conn.key].ifName == name))
  {
    AlwaysOrderly(addrMin, shape, steps);
    GoneIsPickedIff(shape, After(addrMin, steps).server, conn, name);
  }

  // ----- a displaced connection stays

  const OLD := Conn(1, 11, 1, 100)
  const NEW := Conn(2, 11, 1, 100)

  /** A client authenticates and shakes hands, comes back over another connection, and
      then both connections go away, the newer one before its handshake. */
  const COMING: seq<Step> := [
    Authenticate(Request(OLD.(sessionID := 0), 1, 1, 0, 11, 7, true), 0),
    Handshake(OLD),
    Authenticate(Request(NEW, 1, 1, 11, 12, 8, true), 3),
    Disconnect(OLD),
    Disconnect(NEW)]

  const AT_PORT: Shape := (key: nat) => (1, 100)

  const SESSION := map[11 := Session(7, 1, 1)]

  const ONE := Server(SESSION, map[1 := 11], map[7 := Interface(0, [], 11)], map[1 := ServerConn(7, 11, 1, 100)])
  const TWO := ONE.(interfaces := map[7 := Interface(0, [OLD], 11)])
  const THREE := TWO.(connections := map[2 := ServerConn(7, 11, 1, 100)])
  const FIVE := TWO.(connections := map[])

  /** One step of a run, seen from the tables before it and after it. */
  ghost predicate Leads(before: Server, step: Step, after: Server) {
    Enabled(before, step) && Honest(AT_PORT, before, step) && forall n: nat :: Next(0, Run(before, n), step).server == after
  }

  /** After the first `k` steps, all honest, the tables are `t`. */
  ghost predicate Reached(steps: seq<Step>, k: nat, t: Server) {
    k <= |steps| && After(0, steps[..k]).server == t && HonestRun(0, AT_PORT, steps[..k])
  }

  lemma AtFirst(steps: seq<Step>)
    ensures Reached(steps, 0, EMPTY)
  {
  }

  lemma Appended(steps: seq<Step>, k: nat, before: Server, after: Server)
    requires k < |steps| && Reached(steps, k, before) && Leads(before, steps[k], after)
    ensures Reached(steps, k + 1, after)
  {
    assert steps[..k + 1][..k] == steps[..k];
    assert steps[..k + 1][k] == steps[k];
    assert Next(0, Run(before, After(0, steps[..k]).created), steps[k]).server == after;
    hide Next, Honest, Enabled;
  }

  lemma FirstComes()
    ensures Leads(EMPTY, COMING[0], ONE)
  {
    var r := COMING[0].request;
    assert SessionFor(EMPTY, r) == (Server(map[11 := Session(0, 1, 1)], map[1 := 11], map[], map[]), Some(11));
    var after := AfterAuthentication(EMPTY, r, 0);
    assert after.sessions == ONE.sessions && after.interfaces == ONE.interfaces && after.connections == ONE.connections;
  }

  lemma FirstShakesHands()
    ensures Leads(ONE, COMING[1], TWO)
  {
    assert AfterHandshake(ONE, OLD).interfaces == TWO.interfaces;
  }

  lemma FirstComesBack()
    ensures Leads(TWO, COMING[2], THREE)
  {
    var r := COMING[2].request;
    assert SessionFor(TWO, r) == (TWO, Some(11));
    assert AfterAuthentication(TWO, r, 4).connections == THREE.connections;
    assert 7 in TWO.interfaces && LastOf(TWO.interfaces[7].block) == 3;
    assert IsHighest(TWO.interfaces, 3);
  }

  lemma BothGo()
    ensures Leads(THREE, COMING[3], THREE) && Leads(THREE, COMING[4], FIVE)
  {
    assert Left([OLD], 2) == [OLD];
    var after := AfterDisconnect(THREE, NEW);
    assert after.interfaces == FIVE.interfaces && after.connections == FIVE.connections;
  }

  lemma FiveSteps(steps: seq<Step>, one: Server, two: Server, three: Server, four: Server, five: Server)
    requires |steps| == 5 && Leads(EMPTY, steps[0], one) && Leads(one, steps[1], two) && Leads(two, steps[2], three)
    requires Leads(three, steps[3], four) && Leads(four, steps[4], five)
    ensures Reached(steps, 4, four) && Reached(steps, 5, five)
  {
    hide *;
    AtFirst(steps);
    Appended(steps, 0, EMPTY, one);
    Appended(steps, 1, one, two);
    Appended(steps, 2, two, three);
    Appended(steps, 3, three, four);
    Appended(steps, 4, four, five);
  }

  /** The connection that went away first is the one that every later packet leaves by,
      whatever is drawn, even when no connection of the session is left. */
  lemma DisplacedStays(endpoint: u64, random: nat)
    ensures HonestRun(0, AT_PORT, COMING)
    ensures Route(After(0, COMING[..4]).server, 7, BY_CHANCE, endpoint, random) == Ok(OLD)
    ensures var t := After(0, COMING).server;
      Route(t, 7, BY_CHANCE, endpoint, random) == Ok(OLD) && t.connections == map[] && 11 in t.sessions
  {
    FirstComes();
    FirstShakesHands();
    FirstComesBack();
    BothGo();
    hide Leads, HonestRun, After;
    FiveSteps(COMING, ONE, TWO, THREE, THREE, FIVE);
    assert COMING[..5] == COMING;
  }
}
