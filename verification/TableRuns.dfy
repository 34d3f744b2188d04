/** Whole runs of the server's tables: what stays consistent while sessions come and
    go, which addresses the interfaces get, and the runs in which a reused interface
    name, or a connection reported gone without its session, breaks the tables. */
module TableRuns {
  import opened Bytes
  import opened Tables

  /** `highest` is what the search for the highest address in use has found. */
  datatype Step =
    | Authenticate(request: Request, highest: u32)
    | Handshake(conn: Conn)
    | Disconnect(conn: Conn)
    | Reset(conn: Conn)

  /** A run also counts the interfaces it has created. */
  datatype Run = Run(server: Server, created: nat)

  /** The operating system never names an interface like one the server remembers. */
  ghost predicate FreshName(t: Server, name: nat) {
    name != 0 && name !in t.interfaces && forall k :: k in t.connections ==> t.connections[k].ifName != name
  }

  ghost predicate Enabled(t: Server, step: Step) {
    match step
    case Authenticate(r, highest) =>
      var dropped := WithoutClient(t, r.client);
      && r.draw != 0 && r.draw !in dropped.sessions
      && FreshName(SessionFor(t, r).0, r.name)
      && IsHighest(SessionFor(t, r).0.interfaces, highest)
    case Disconnect(conn) => conn.key in t.connections ==> t.connections[conn.key].sessionID == conn.sessionID
    case _ => true
  }

  function Next(addrMin: u32, run: Run, step: Step): Run {
    match step
    case Authenticate(r, highest) =>
      Run(AfterAuthentication(run.server, r, BlockAfter(addrMin, highest)),
          run.created + if Creates(run.server, r) then 1 else 0)
    case Handshake(conn) => run.(server := AfterHandshake(run.server, conn))
    case Disconnect(conn) => run.(server := AfterDisconnect(run.server, conn))
    case Reset(conn) => run.(server := AfterReset(run.server, conn))
  }

  ghost function After(addrMin: u32, steps: seq<Step>): Run {
    if steps == [] then Run(EMPTY, 0)
    else
      var before := After(addrMin, steps[..|steps| - 1]);
      if Enabled(before.server, steps[|steps| - 1]) then Next(addrMin, before, steps[|steps| - 1]) else before
  }

  lemma SessionKeepsConsistent(t: Server, r: Request)
    requires Consistent(t) && Attached(t)
    requires r.draw != 0 && r.draw !in WithoutClient(t, r.client).sessions
    ensures var (next, id) := SessionFor(t, r);
      Consistent(next) && Attached(next) && (id.Some? ==> id.value in next.sessions)
  {
    if r.sessionID == 0 {
      if r.client in t.clients { DropKeepsConsistent(t, t.clients[r.client]); }
      CreateKeepsConsistent(WithoutClient(t, r.client), r.client, r.user, r.draw);
    }
  }

  lemma InterfaceKeepsAttached(t: Server, id: u32, name: nat, block: u32)
    requires Consistent(t) && Attached(t) && id in t.sessions && FreshName(t, name)
    ensures var made := WithInterface(t, id, name, block);
      Consistent(made) && Attached(made) && id in made.sessions
      && made.sessions[id].ifName in made.interfaces && made.interfaces[made.sessions[id].ifName].sessionID == id
  {
    if t.sessions[id].ifName == 0 { InterfaceKeepsConsistentIff(t, id, name, block); }
  }

  lemma ConnectionKeepsAttached(t: Server, key: nat, sc: ServerConn)
    requires Consistent(t) && Attached(t)
    requires sc.ifName in t.interfaces ==> t.interfaces[sc.ifName].sessionID == sc.sessionID
    ensures Consistent(WithConnection(t, key, sc)) && Attached(WithConnection(t, key, sc))
  {
  }

  lemma AuthenticationKeepsConsistent(t: Server, r: Request, highest: u32, block: u32)
    requires Consistent(t) && Attached(t) && Enabled(t, Authenticate(r, highest))
    ensures Consistent(AfterAuthentication(t, r, block)) && Attached(AfterAuthentication(t, r, block))
  {
    SessionKeepsConsistent(t, r);
    var (next, id) := SessionFor(t, r);
    hide SessionFor, Consistent, Attached;
    if id.Some? && !(next.sessions[id.value].ifName == 0 && !r.created) {
      InterfaceKeepsAttached(next, id.value, r.name, block);
      var made := WithInterface(next, id.value, r.name, block);
      ConnectionKeepsAttached(made, r.conn.key,
        ServerConn(made.sessions[id.value].ifName, id.value, r.conn.protocol, r.conn.port));
    }
  }

  lemma DisconnectKeepsAttached(t: Server, conn: Conn)
    requires Consistent(t) && Attached(t) && Enabled(t, Disconnect(conn))
    ensures Consistent(AfterDisconnect(t, conn)) && Attached(AfterDisconnect(t, conn))
  {
    DisconnectKeepsConsistentIff(t, conn);
  }

  /** Over every run of authentication, handshake, disconnection and reset the tables stay
      consistent, as long as interface names are fresh and a disconnecting connection
      carries its own session; the last sections show what happens otherwise. */
  lemma {:induction false} AlwaysConsistent(addrMin: u32, steps: seq<Step>)
    ensures Consistent(After(addrMin, steps).server) && Attached(After(addrMin, steps).server)
  {
    if steps != [] {
      var before, step := After(addrMin, steps[..|steps| - 1]).server, steps[|steps| - 1];
      AlwaysConsistent(addrMin, steps[..|steps| - 1]);
      if Enabled(before, step) {
        match step {
          case Authenticate(r, highest) =>
            AuthenticationKeepsConsistent(before, r, highest, BlockAfter(addrMin, highest));
          case Handshake(conn) => HandshakeKeepsConsistent(before, conn);
          case Disconnect(conn) => DisconnectKeepsAttached(before, conn);
          case Reset(conn) =>
            if conn.key in before.connections { DropKeepsConsistent(before, before.connections[conn.key].sessionID); }
        }
      }
    }
  }

  // ----- address blocks

  /** Every live block is one of the first `created` after `addrMin`. */
  ghost predicate InRange(addrMin: u32, interfaces: map<nat, Interface>, created: nat) {
    forall n :: n in interfaces ==>
      && addrMin <= interfaces[n].block && (interfaces[n].block - addrMin) % 4 == 0
      && interfaces[n].block + 4 <= addrMin + 4 * created
  }

  ghost predicate Disjoint(interfaces: map<nat, Interface>) {
    forall n, m :: n in interfaces && m in interfaces && n != m ==>
      interfaces[n].block + 4 <= interfaces[m].block || interfaces[m].block + 4 <= interfaces[n].block
  }

  ghost predicate Addressed(addrMin: u32, run: Run) {
    InRange(addrMin, run.server.interfaces, run.created) && Disjoint(run.server.interfaces)
  }

  lemma NewBlockIsAbove(addrMin: u32, interfaces: map<nat, Interface>, created: nat, highest: u32)
    requires InRange(addrMin, interfaces, created) && addrMin + 4 * (created + 1) <= 0x1_0000_0000
    requires IsHighest(interfaces, highest)
    ensures var block := BlockAfter(addrMin, highest);
      && addrMin <= block && (block - addrMin) % 4 == 0 && block + 4 <= addrMin + 4 * (created + 1)
      && forall n :: n in interfaces ==> interfaces[n].block + 4 <= block
  {
    forall n | n in interfaces ensures LastOf(interfaces[n].block) == interfaces[n].block + 3 {
      LastOfBlock(interfaces[n].block);
    }
    hide LastOf;
    if highest != 0 {
      var n :| n in interfaces && LastOf(interfaces[n].block) == highest;
      FourMore(addrMin, interfaces[n].block);
      assert BlockAfter(addrMin, highest) == interfaces[n].block + 4 by { BlockAbove(addrMin, highest); }
    }
  }

  lemma LastOfBlock(block: u32)
    requires block + 4 <= 0x1_0000_0000
    ensures LastOf(block) == block + 3
  {
  }

  lemma FourMore(addrMin: int, block: int)
    requires (block - addrMin) % 4 == 0
    ensures (block + 4 - addrMin) % 4 == 0
  {
  }

  lemma BlockAbove(addrMin: u32, highest: u32)
    requires 0 < highest && highest + 1 < 0x1_0000_0000
    ensures BlockAfter(addrMin, highest) == highest + 1
  {
  }

  lemma OneMoreBlock(addrMin: u32, interfaces: map<nat, Interface>, created: nat, name: nat, i: Interface)
    requires InRange(addrMin, interfaces, created) && Disjoint(interfaces) && name !in interfaces
    requires addrMin <= i.block && (i.block - addrMin) % 4 == 0 && i.block + 4 <= addrMin + 4 * (created + 1)
    requires forall n :: n in interfaces ==> interfaces[n].block + 4 <= i.block
    ensures InRange(addrMin, interfaces[name := i], created + 1) && Disjoint(interfaces[name := i])
  {
  }

  lemma InterfaceKeepsAddressed(addrMin: u32, t: Server, created: nat, id: u32, name: nat, highest: u32)
    requires Addressed(addrMin, Run(t, created)) && addrMin + 4 * (created + 1) <= 0x1_0000_0000
    requires id in t.sessions && t.sessions[id].ifName == 0 && name !in t.interfaces && IsHighest(t.interfaces, highest)
    ensures Addressed(addrMin, Run(WithInterface(t, id, name, BlockAfter(addrMin, highest)), created + 1))
  {
    NewBlockIsAbove(addrMin, t.interfaces, created, highest);
    hide IsHighest, BlockAfter, InRange, Disjoint;
    OneMoreBlock(addrMin, t.interfaces, created, name, Interface(BlockAfter(addrMin, highest), [], id));
  }

  /** `fewer` has no interface that `more` has not, with the same block. */
  ghost predicate Blocks(fewer: Server, more: Server) {
    forall n :: n in fewer.interfaces ==> n in more.interfaces && fewer.interfaces[n].block == more.interfaces[n].block
  }

  lemma FewerBlocksAddressed(addrMin: u32, fewer: Server, more: Server, created: nat)
    requires Addressed(addrMin, Run(more, created)) && Blocks(fewer, more)
    ensures Addressed(addrMin, Run(fewer, created))
  {
  }

  lemma AuthenticationBlocks(t: Server, r: Request, block: u32)
    ensures var (next, id) := SessionFor(t, r); var later := AfterAuthentication(t, r, block);
      && Blocks(next, t)
      && (Creates(t, r) ==> Blocks(later, WithInterface(next, id.value, r.name, block)))
      && (!Creates(t, r) ==> Blocks(later, next))
  {
  }

  lemma AuthenticationKeepsAddressed(addrMin: u32, t: Server, created: nat, r: Request, highest: u32)
    requires Addressed(addrMin, Run(t, created)) && Enabled(t, Authenticate(r, highest))
    requires addrMin + 4 * (created + if Creates(t, r) then 1 else 0) <= 0x1_0000_0000
    ensures Addressed(addrMin, Next(addrMin, Run(t, created), Authenticate(r, highest)))
  {
    var (next, id) := SessionFor(t, r);
    var block := BlockAfter(addrMin, highest);
    var later := AfterAuthentication(t, r, block);
    AuthenticationBlocks(t, r, block);
    FreshNameIsNew(next, r.name);
    hide SessionFor, Addressed, Blocks, IsHighest, FreshName, BlockAfter, AfterAuthentication;
    FewerBlocksAddressed(addrMin, next, t, created);
    if Creates(t, r) {
      InterfaceKeepsAddressed(addrMin, next, created, id.value, r.name, highest);
      FewerBlocksAddressed(addrMin, later, WithInterface(next, id.value, r.name, block), created + 1);
    } else {
      FewerBlocksAddressed(addrMin, later, next, created);
    }
  }

  lemma StepKeepsAddressed(addrMin: u32, run: Run, step: Step)
    requires Addressed(addrMin, run) && Enabled(run.server, step)
    requires addrMin + 4 * Next(addrMin, run, step).created <= 0x1_0000_0000
    ensures Addressed(addrMin, Next(addrMin, run, step))
  {
    var t := run.server;
    hide Addressed;
    match step {
      case Authenticate(r, highest) => AuthenticationKeepsAddressed(addrMin, t, run.created, r, highest);
      case Handshake(conn) => FewerBlocksAddressed(addrMin, AfterHandshake(t, conn), t, run.created);
      case Disconnect(conn) => FewerBlocksAddressed(addrMin, AfterDisconnect(t, conn), t, run.created);
      case Reset(conn) => FewerBlocksAddressed(addrMin, AfterReset(t, conn), t, run.created);
    }
  }

  lemma FreshNameIsNew(t: Server, name: nat)
    requires FreshName(t, name)
    ensures name !in t.interfaces
  {
  }

  /** A creation is counted exactly when the new interface is there afterwards. */
  lemma CreatesIff(t: Server, r: Request, highest: u32, block: u32)
    requires Consistent(t) && Attached(t) && Enabled(t, Authenticate(r, highest))
    ensures Creates(t, r) <==> r.name in AfterAuthentication(t, r, block).interfaces
  {
    SessionKeepsConsistent(t, r);
    var (next, id) := SessionFor(t, r);
    FreshNameIsNew(next, r.name);
    hide SessionFor, Consistent, Attached, FreshName, IsHighest;
  }

  /** Over every run the blocks of live interfaces are disjoint, a multiple of four
      addresses above the first, and after n creations within the first 4n, as long
      as those exist. */
  lemma {:induction false} AlwaysAddressed(addrMin: u32, steps: seq<Step>)
    requires addrMin + 4 * After(addrMin, steps).created <= 0x1_0000_0000
    ensures Addressed(addrMin, After(addrMin, steps))
  {
    if steps != [] {
      var before := After(addrMin, steps[..|steps| - 1]);
      assert before.created <= After(addrMin, steps).created;
      AlwaysAddressed(addrMin, steps[..|steps| - 1]);
      if Enabled(before.server, steps[|steps| - 1]) { StepKeepsAddressed(addrMin, before, steps[|steps| - 1]); }
    }
  }

  // ----- what a reused name does

  const FIRST: Request := Request(Conn(1, 0, 2, 100), 1, 1, 0, 11, 7, true)
  const SECOND: Request := Request(Conn(2, 0, 2, 100), 2, 2, 0, 12, 7, true)

  /** What the second client's authentication leaves. */
  const REUSED := Server(
    map[12 := Session(7, 2, 2)], map[2 := 12], map[7 := Interface(0, [], 12)],
    map[1 := ServerConn(7, 11, 2, 100), 2 := ServerConn(7, 12, 2, 100)])

  lemma FirstGoes()
    ensures AfterReset(AfterAuthentication(EMPTY, FIRST, 0), FIRST.conn)
         == Server(map[], map[], map[], map[1 := ServerConn(7, 11, 2, 100)])
  {
    var first := AfterAuthentication(EMPTY, FIRST, 0);
    assert first.sessions == map[11 := Session(7, 1, 1)] && first.clients == map[1 := 11];
    assert first.interfaces == map[7 := Interface(0, [], 11)] && first.connections == map[1 := ServerConn(7, 11, 2, 100)];
  }

  lemma SecondComes()
    ensures AfterAuthentication(Server(map[], map[], map[], map[1 := ServerConn(7, 11, 2, 100)]), SECOND, 0) == REUSED
  {
    var second := AfterAuthentication(Server(map[], map[], map[], map[1 := ServerConn(7, 11, 2, 100)]), SECOND, 0);
    assert second.sessions == REUSED.sessions && second.clients == REUSED.clients;
    assert second.interfaces == REUSED.interfaces && second.connections == REUSED.connections;
  }

  /** A client authenticates and resets its session; the next client gets an interface
      of the same name; then the first client's connection goes away. It carries its own
      session, and yet the second client's session is left without its interface. */
  lemma ReusedNameBreaksTables()
    ensures var gone := AfterReset(AfterAuthentication(EMPTY, FIRST, 0), FIRST.conn);
      var reused := AfterAuthentication(gone, SECOND, 0);
      var leaving := FIRST.conn.(sessionID := 11);
      && 7 !in gone.interfaces && Consistent(reused)
      && reused.connections[leaving.key].sessionID == leaving.sessionID
      && var broken := AfterDisconnect(reused, leaving);
      && !Consistent(broken) && broken.sessions[12].ifName == 7 && 7 !in broken.interfaces
  {
    FirstGoes();
    SecondComes();
    hide AfterReset, AfterAuthentication;
    DisconnectKeepsConsistentIff(REUSED, FIRST.conn.(sessionID := 11));
  }

  // ----- what a connection without its session does

  /** What the first client's authentication leaves, and what is left when its connection
      is reported gone under session 0. */
  const AUTHENTICATED := Server(
    map[11 := Session(7, 1, 1)], map[1 := 11], map[7 := Interface(0, [], 11)], map[1 := ServerConn(7, 11, 2, 100)])

  const BROKEN := Server(map[11 := Session(7, 1, 1)], map[1 := 11], map[], map[])

  lemma FirstComes()
    ensures AfterAuthentication(EMPTY, FIRST, 0) == AUTHENTICATED && Consistent(AUTHENTICATED)
  {
    var first := AfterAuthentication(EMPTY, FIRST, 0);
    assert first.sessions == AUTHENTICATED.sessions && first.clients == AUTHENTICATED.clients;
    assert first.interfaces == AUTHENTICATED.interfaces && first.connections == AUTHENTICATED.connections;
  }

  /** A client authenticates; then a datagram from its address cannot be read, and the
      receive loop reports its connection gone before it has set the session, which is 0
      still. The interface goes and the session stays, good for authentication as before,
      and the next one panics, whether it asks for that session or for a new one. */
  lemma BadHeaderBreaksTables(name: nat, created: bool, draw: u32)
    ensures var t := AfterAuthentication(EMPTY, FIRST, 0);
      var broken := AfterDisconnect(t, FIRST.conn);
      var again := FIRST.(name := name, created := created, draw := draw);
      && Consistent(t) && FIRST.conn.sessionID == 0
      && !Consistent(broken) && Checked(broken, 11, 1, 1)
      && broken.sessions[11].ifName == 7 && 7 !in broken.interfaces
      && AuthenticationPanics(broken, again) && AuthenticationPanics(broken, again.(sessionID := 11))
  {
    FirstComes();
    hide AfterAuthentication;
    var broken := AfterDisconnect(AUTHENTICATED, FIRST.conn);
    assert broken.sessions == BROKEN.sessions && broken.clients == BROKEN.clients;
    assert broken.interfaces == BROKEN.interfaces && broken.connections == BROKEN.connections;
    DisconnectKeepsConsistentIff(AUTHENTICATED, FIRST.conn);
    hide AfterDisconnect, Consistent;
  }

  // ----- whose connections a session has

  /** The request makes a session under this ID. */
  predicate Draws(t: Server, r: Request, s: u32) {
    r.sessionID == 0 && r.draw == s && r.client !in WithoutClient(t, r.client).clients
  }

  /** The client and user for whom the session was made last. */
  ghost function Creator(addrMin: u32, steps: seq<Step>, s: u32): Option<(nat, nat)> {
    if steps == [] then None
    else
      var before, step := After(addrMin, steps[..|steps| - 1]).server, steps[|steps| - 1];
      if step.Authenticate? && Enabled(before, step) && Draws(before, step.request, s)
      then Some((step.request.client, step.request.user))
      else Creator(addrMin, steps[..|steps| - 1], s)
  }

  /** In its `j`-th step the connection authenticated as the client for whom the session
      was made, and as the user, unless it took over a session made for another user. */
  ghost predicate AuthorisedAt(addrMin: u32, steps: seq<Step>, j: nat, key: nat, s: u32) {
    && j < |steps| && steps[j].Authenticate? && steps[j].request.conn.key == key
    && var t, r, creator := After(addrMin, steps[..j]).server, steps[j].request, Creator(addrMin, steps[..j + 1], s);
    && Enabled(t, steps[j]) && creator.Some? && creator.value.0 == r.client
    && (creator.value.1 == r.user <==> !TakesOver(t, r))
  }

  ghost predicate Authorised(addrMin: u32, steps: seq<Step>, key: nat, s: u32) {
    exists j: nat :: AuthorisedAt(addrMin, steps, j, key, s)
  }

  /** Sessions are made out to those for whom they were made. */
  ghost predicate AsCreated(addrMin: u32, steps: seq<Step>, t: Server) {
    forall s :: s in t.sessions ==> Creator(addrMin, steps, s) == Some((t.sessions[s].client, t.sessions[s].user))
  }

  lemma RequestMakes(t: Server, r: Request, s: u32)
    requires Consistent(t) && r.draw != 0 && r.draw !in WithoutClient(t, r.client).sessions
    requires s in SessionFor(t, r).0.sessions
    ensures var made := SessionFor(t, r).0.sessions[s];
      if Draws(t, r, s) then made.client == r.client && made.user == r.user
      else s in t.sessions && made == t.sessions[s]
  {
    if r.client in t.clients { DropKeepsConsistent(t, t.clients[r.client]); }
  }

  lemma AuthenticationMakes(t: Server, r: Request, block: u32, s: u32)
    requires Consistent(t) && r.draw != 0 && r.draw !in WithoutClient(t, r.client).sessions
    requires s in AfterAuthentication(t, r, block).sessions
    ensures var made := AfterAuthentication(t, r, block).sessions[s];
      if Draws(t, r, s) then made.client == r.client && made.user == r.user
      else s in t.sessions && made.client == t.sessions[s].client && made.user == t.sessions[s].user
  {
    var (next, id) := SessionFor(t, r);
    assert s in next.sessions && AfterAuthentication(t, r, block).sessions[s].(ifName := next.sessions[s].ifName) == next.sessions[s] by {
      hide SessionFor, Consistent, WithoutClient;
    }
    RequestMakes(t, r, s);
    hide SessionFor, Consistent, AfterAuthentication, WithoutClient;
  }

  lemma OthersMakeNone(addrMin: u32, run: Run, step: Step, s: u32)
    requires !step.Authenticate? && s in Next(addrMin, run, step).server.sessions
    ensures s in run.server.sessions && Next(addrMin, run, step).server.sessions[s] == run.server.sessions[s]
  {
  }

  lemma NextAuthenticates(addrMin: u32, run: Run, step: Step)
    requires step.Authenticate?
    ensures Next(addrMin, run, step).server == AfterAuthentication(run.server, step.request, BlockAfter(addrMin, step.highest))
  {
  }

  lemma {:induction false} AlwaysAsCreated(addrMin: u32, steps: seq<Step>)
    ensures AsCreated(addrMin, steps, After(addrMin, steps).server)
  {
    if steps != [] {
      var front, step := steps[..|steps| - 1], steps[|steps| - 1];
      var before := After(addrMin, front);
      AlwaysAsCreated(addrMin, front);
      AlwaysConsistent(addrMin, front);
      hide Consistent, Next;
      if Enabled(before.server, step) {
        forall s | s in Next(addrMin, before, step).server.sessions
          ensures Creator(addrMin, steps, s)
            == Some((Next(addrMin, before, step).server.sessions[s].client, Next(addrMin, before, step).server.sessions[s].user))
        {
          if step.Authenticate? {
            NextAuthenticates(addrMin, before, step);
            AuthenticationMakes(before.server, step.request, BlockAfter(addrMin, step.highest), s);
          } else {
            OthersMakeNone(addrMin, before, step, s);
          }
        }
      }
    }
  }

  /** Authentication enters at most the one connection, for a session that is the client's. */
  lemma EntersItsOwn(t: Server, r: Request, block: u32, k: nat)
    requires Consistent(t) && r.draw != 0 && r.draw !in WithoutClient(t, r.client).sessions
    requires k in AfterAuthentication(t, r, block).connections
    ensures var next := AfterAuthentication(t, r, block);
      var s := next.connections[k].sessionID;
      || (k in t.connections && t.connections[k] == next.connections[k])
      || (&& k == r.conn.key && s in next.sessions && next.sessions[s].client == r.client
          && (next.sessions[s].user == r.user <==> !TakesOver(t, r)))
  {
    SessionIsOwn(t, r);
    var (next, id) := SessionFor(t, r);
    assert next.connections == t.connections;
    hide SessionFor, Consistent, TakesOver, WithoutClient;
  }

  lemma SessionIsOwn(t: Server, r: Request)
    requires Consistent(t) && r.draw != 0 && r.draw !in WithoutClient(t, r.client).sessions
    ensures var (next, id) := SessionFor(t, r);
      && next.connections == t.connections
      && (id.Some? ==> id.value in next.sessions && next.sessions[id.value].client == r.client
                       && (next.sessions[id.value].user == r.user <==> !TakesOver(t, r)))
  {
    if r.client in t.clients { DropKeepsConsistent(t, t.clients[r.client]); }
  }

  lemma OthersEnterNone(addrMin: u32, run: Run, step: Step, k: nat)
    requires !step.Authenticate? && k in Next(addrMin, run, step).server.connections
    ensures k in run.server.connections && Next(addrMin, run, step).server.connections[k] == run.server.connections[k]
  {
  }

  lemma StillAuthorised(addrMin: u32, front: seq<Step>, step: Step, key: nat, s: u32)
    requires Authorised(addrMin, front, key, s)
    ensures Authorised(addrMin, front + [step], key, s)
  {
    var j: nat :| AuthorisedAt(addrMin, front, j, key, s);
    assert (front + [step])[..j] == front[..j] && (front + [step])[..j + 1] == front[..j + 1];
    assert AuthorisedAt(addrMin, front + [step], j, key, s);
  }

  lemma NowAuthorised(addrMin: u32, front: seq<Step>, step: Step, k: nat)
    requires step.Authenticate? && Enabled(After(addrMin, front).server, step) && Consistent(After(addrMin, front).server)
    requires k in After(addrMin, front + [step]).server.connections
    requires forall i :: i in After(addrMin, front).server.connections ==>
      Authorised(addrMin, front, i, After(addrMin, front).server.connections[i].sessionID)
    ensures Authorised(addrMin, front + [step], k, After(addrMin, front + [step]).server.connections[k].sessionID)
  {
    var steps, before := front + [step], After(addrMin, front);
    assert steps[..|front|] == front && steps[..|front| + 1] == steps;
    var later, block := After(addrMin, steps).server, BlockAfter(addrMin, step.highest);
    NextAuthenticates(addrMin, before, step);
    AlwaysAsCreated(addrMin, steps);
    assert later == AfterAuthentication(before.server, step.request, block);
    hide Consistent, Authorised, Next, After, AfterAuthentication, Creator, TakesOver;
    EntersItsOwn(before.server, step.request, block, k);
    hide Enabled;
    if k in before.server.connections && before.server.connections[k] == later.connections[k] {
      StillAuthorised(addrMin, front, step, k, later.connections[k].sessionID);
    } else {
      AuthorisedNow(addrMin, steps, k, later.connections[k].sessionID);
    }
  }

  lemma AuthorisedNow(addrMin: u32, steps: seq<Step>, key: nat, s: u32)
    requires steps != [] && AuthorisedAt(addrMin, steps, |steps| - 1, key, s)
    ensures Authorised(addrMin, steps, key, s)
  {
  }

  /** Over every run every connection that is entered for a session has authenticated as
      the client for whom that session was made, and as its user, unless it took over a
      session of another user that had no interface. */
  lemma {:induction false} AlwaysAuthorised(addrMin: u32, steps: seq<Step>, k: nat)
    requires k in After(addrMin, steps).server.connections
    ensures Authorised(addrMin, steps, k, After(addrMin, steps).server.connections[k].sessionID)
  {
    var front, step := steps[..|steps| - 1], steps[|steps| - 1];
    var before := After(addrMin, front);
    assert steps == front + [step];
    forall i | i in before.server.connections ensures Authorised(addrMin, front, i, before.server.connections[i].sessionID) {
      AlwaysAuthorised(addrMin, front, i);
    }
    AlwaysConsistent(addrMin, front);
    hide Authorised, Consistent, Next;
    if Enabled(before.server, step) && step.Authenticate? {
      NowAuthorised(addrMin, front, step, k);
    } else {
      if Enabled(before.server, step) { OthersEnterNone(addrMin, before, step, k); }
      StillAuthorised(addrMin, front, step, k, before.server.connections[k].sessionID);
    }
  }

  /** A client starts without getting its interface, and comes back as another user. */
  const UNMADE := FIRST.(created := false)
  const TAKEN_OVER := FIRST.(user := 2, draw := 12)

  /** Such a run: the session made for user 1 gets the connection of user 2. */
  lemma SessionChangesHands()
    ensures var unmade := AfterAuthentication(EMPTY, UNMADE, 0);
      var later := AfterAuthentication(unmade, TAKEN_OVER, 0);
      && Draws(EMPTY, UNMADE, 11) && UNMADE.user == 1 && TakesOver(unmade, TAKEN_OVER)
      && 1 in later.connections && later.connections[1].sessionID == 11
      && 11 in later.sessions && later.sessions[11].user == 1 && TAKEN_OVER.user == 2
  {
    var unmade := AfterAuthentication(EMPTY, UNMADE, 0);
    assert unmade.sessions == map[11 := Session(0, 1, 1)] && unmade.clients == map[1 := 11];
    assert unmade.interfaces == map[] && unmade.connections == map[];
  }
}
