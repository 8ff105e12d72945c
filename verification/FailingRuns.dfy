/**
 Runs in which something goes wrong that one would expect to go right. Each is given for every choice
 of ids, names, times and addresses that makes it happen.
 */
module FailingRuns {
  import opened Bytes
  import opened PlayerTransport
  import opened SessionTable
  import opened SessionRuns
  import opened Routing
  import Wire = RelayWire

  lemma FirstSession(id: SessionId, maxPlayers: int, created: Time)
    ensures var t := SessionRuns.Step(EMPTY, CreateEv(id, maxPlayers, created));
      t.sessions == map[id := 0] && t.index == map[] && 0 in t.heap && t.heap[0] == Session(id, maxPlayers, created, map[]) && t.next == 1
  {
  }

  /** A player that is registered nowhere joins a session with room. */
  lemma NewcomerJoins(t: Table, id: SessionId, pid: PlayerId, login: string, now: Time)
    requires Linked(t) && id in t.sessions && pid !in t.index && |t.index| < MAX_TOTAL_PLAYERS
    requires pid !in t.heap[t.sessions[id]].players && |t.heap[t.sessions[id]].players| < t.heap[t.sessions[id]].maxPlayers
    ensures var u, r := SessionRuns.Step(t, JoinEv(id, pid, login, now)), t.sessions[id];
      && u.sessions == t.sessions && u.index == t.index[pid := id]
      && u.heap == t.heap[r := t.heap[r].(players := t.heap[r].players[pid := NewPlayer(login)])] && IsMember(u, id, pid)
  {
  }

  // ---------------------------------------------------------------- reaped on joining

  /** Silence is not measured from the join: a player that joins an old session can be reaped at the very moment it joined. */
  lemma ReapedOnJoining(id: SessionId, maxPlayers: int, created: Time, pid: PlayerId, login: string, joined: Time)
    requires maxPlayers > 0 && joined - created > PLAYER_TIMEOUT
    ensures var es := [CreateEv(id, maxPlayers, created), JoinEv(id, pid, login, joined), ReapPlayerEv(0, pid, joined)];
      && IsMember(Run(EMPTY, es[..2]), id, pid)
      && !IsMember(Run(EMPTY, es), id, pid)
  {
    var a, b, c := CreateEv(id, maxPlayers, created), JoinEv(id, pid, login, joined), ReapPlayerEv(0, pid, joined);
    assert [a, b, c][..2] == [a, b];
    hide Run, SessionRuns.Step, IsMember;
    RunOfThree(EMPTY, a, b, c);
    RunOfTwo(EMPTY, a, b);
    var t := SessionRuns.Step(EMPTY, a);
    FirstSession(id, maxPlayers, created);
    NewcomerJoins(t, id, pid, login, joined);
    StaleIsReaped(SessionRuns.Step(t, b), id, pid, joined);
  }

  lemma StaleIsReaped(t: Table, id: SessionId, pid: PlayerId, now: Time)
    requires Linked(t) && IsMember(t, id, pid)
    requires IsStale(t.heap[t.sessions[id]], t.heap[t.sessions[id]].players[pid], now)
    ensures !IsMember(SessionRuns.Step(t, ReapPlayerEv(t.sessions[id], pid, now)), id, pid)
  {
  }

  // ---------------------------------------------------------------- lost in migration

  lemma SecondSession(t: Table, id: SessionId, maxPlayers: int, created: Time)
    requires Linked(t) && id !in t.sessions && |t.sessions| < MAX_TOTAL_SESSIONS
    ensures var u := SessionRuns.Step(t, CreateEv(id, maxPlayers, created));
      && u.sessions == t.sessions[id := t.next] && u.index == t.index
      && u.heap == t.heap[t.next := Session(id, maxPlayers, created, map[])]
  {
  }

  /** Moving to a full session: the player has left the old one and does not get into the new one. */
  lemma MigrationRefused(t: Table, home: SessionId, target: SessionId, pid: PlayerId, login: string, now: Time)
    requires Linked(t) && home != target && IsMember(t, home, pid) && Indexed(t, home, pid)
    requires target in t.sessions && !IsMember(t, target, pid)
    requires |t.heap[t.sessions[target]].players| >= t.heap[t.sessions[target]].maxPlayers
    ensures var u := SessionRuns.Step(t, JoinEv(target, pid, login, now));
      pid !in u.index && !IsMember(u, home, pid) && !IsMember(u, target, pid)
  {
    assert t.heap[t.sessions[home]].id == home && t.heap[t.sessions[target]].id == target;
  }

  /** Two sessions for one player each: whoever tries to move into the other's session ends up in none. */
  lemma LostInMigration(home: SessionId, target: SessionId, a: PlayerId, b: PlayerId) returns (es: seq<Event>)
    requires home != target && a != b
    ensures es != [] && es[|es| - 1] == JoinEv(target, a, "a", 0)
    ensures IsMember(Run(EMPTY, es[..|es| - 1]), home, a)
    ensures var t := Run(EMPTY, es); a !in t.index && !IsMember(t, home, a) && !IsMember(t, target, a)
  {
    var e1, e2 := CreateEv(home, 1, 0), CreateEv(target, 1, 0);
    var e3, e4, e5 := JoinEv(home, a, "a", 0), JoinEv(target, b, "b", 0), JoinEv(target, a, "a", 0);
    hide Run, SessionRuns.Step;
    RunOfThree(EMPTY, e1, e2, e3);
    var t1 := SessionRuns.Step(EMPTY, e1);
    FirstSession(home, 1, 0);
    SecondSession(t1, target, 1, 0);
    var t2 := SessionRuns.Step(t1, e2);
    NewcomerJoins(t2, home, a, "a", 0);
    var t3 := SessionRuns.Step(t2, e3);
    NewcomerJoins(t3, target, b, "b", 0);
    var t4 := SessionRuns.Step(t3, e4);
    MigrationRefused(t4, home, target, a, "a", 0);
    es := [e1, e2, e3] + [e4];
    RunAppend(EMPTY, [e1, e2, e3], e4);
    RunAppend(EMPTY, es, e5);
    assert (es + [e5])[..|es|] == es;
    es := es + [e5];
  }

  // ---------------------------------------------------------------- crash

  /** A relay without packets under way whose session object 0 holds `a`, who has not sent yet, and `b` on TCP. */
  ghost predicate Ready(c: Relay, id: SessionId, a: PlayerId, b: PlayerId) {
    && !c.crashed && c.jobs == map[] && Linked(c.table)
    && id in c.table.sessions && c.table.sessions[id] == 0 && 0 in c.table.heap
    && a in c.table.index && c.table.index[a] == id
    && var players := c.table.heap[0].players;
    && a in players && players[a] == NewPlayer("a")
    && b in players && Target(players[b]).Some? && Target(players[b]).value.TcpPeer?
  }

  /** Two players join and the second connects over TCP. */
  lemma TwoPlayers(id: SessionId, a: PlayerId, b: PlayerId, conn: Conn) returns (ss: seq<Step>)
    requires a != b
    ensures Possible(ss) && Ready(RelayAfter(ss), id, a, b)
  {
    var e1, e2, e3 := CreateEv(id, 2, 0), JoinEv(id, a, "a", 0), JoinEv(id, b, "b", 0);
    var e4 := PacketEv(0, b, TcpPeer(conn), 0);
    hide SessionRuns.Step;
    FirstSession(id, 2, 0);
    var t1 := SessionRuns.Step(EMPTY, e1);
    NewcomerJoins(t1, id, a, "a", 0);
    var t2 := SessionRuns.Step(t1, e2);
    NewcomerJoins(t2, id, b, "b", 0);
    var t3 := SessionRuns.Step(t2, e3);
    ConnectsOverTcp(t3, 0, b, conn);
    ss := [];
    Extend(ss, TableStep(e1));
    ss := ss + [TableStep(e1)];
    Extend(ss, TableStep(e2));
    ss := ss + [TableStep(e2)];
    Extend(ss, TableStep(e3));
    ss := ss + [TableStep(e3)];
    Extend(ss, TableStep(e4));
    ss := ss + [TableStep(e4)];
  }

  lemma ConnectsOverTcp(t: Table, r: Ref, b: PlayerId, conn: Conn)
    requires Linked(t) && r in t.heap && b in t.heap[r].players && t.heap[r].players[b] == NewPlayer("b")
    ensures var u := SessionRuns.Step(t, PacketEv(r, b, TcpPeer(conn), 0));
      && u.sessions == t.sessions && u.index == t.index && r in u.heap
      && b in u.heap[r].players && Target(u.heap[r].players[b]) == Some(TcpPeer(conn))
      && forall p :: p in t.heap[r].players && p != b ==> p in u.heap[r].players && u.heap[r].players[p] == t.heap[r].players[p]
  {
  }

  lemma Admits(c: Relay, id: SessionId, a: PlayerId, b: PlayerId, addr: AddrPort, data: seq<byte>)
    requires Ready(c, id, a, b) && a != b
    requires Wire.HEADER_SIZE <= |data| <= Wire.RECEIVE_BUFFER && SenderOf(data) == a
    ensures Enabled(c, Arrive(0, UdpPeer(addr), data))
    ensures var arrived := Next(c, Arrive(0, UdpPeer(addr), data));
      && Enabled(arrived, Lookup(0))
      && var found := Next(arrived, Lookup(0));
      && Enabled(found, Admit(0, 0))
      && var admitted := Next(found, Admit(0, 0));
      && !admitted.crashed && 0 in admitted.jobs && admitted.jobs[0] == Job(UdpPeer(addr), data, Admitted(0))
      && 0 in admitted.table.heap && b in admitted.table.heap[0].players
      && admitted.table.heap[0].players[b] == c.table.heap[0].players[b]
  {
    hide Linked, Sends, CountRoute, RouteOutcome;
  }

  /** A packet admitted for `b` alone, who is on TCP, and larger than a frame. */
  lemma RoutesIntoPanic(c: Relay, a: PlayerId, b: PlayerId)
    requires Linked(c.table) && !c.crashed && 0 in c.jobs && c.jobs[0].phase == Admitted(0) && 0 in c.table.heap
    requires |c.jobs[0].data| > Wire.MAX_PACKET
    requires SenderOf(c.jobs[0].data) == a && DestOf(c.jobs[0].data) == b && a != b && b != Wire.BROADCAST
    requires var players := c.table.heap[0].players;
      b in players && Target(players[b]).Some? && Target(players[b]).value.TcpPeer?
    ensures Enabled(c, Route(0, [b], {})) && Next(c, Route(0, [b], {})).crashed
  {
    hide Linked, CountRoute;
  }

  /** Any datagram of 1401 to 1500 bytes from one player to another who is on TCP ends the relay. */
  lemma OversizedPacketCrashes(id: SessionId, a: PlayerId, b: PlayerId, conn: Conn, addr: AddrPort, data: seq<byte>)
    returns (ss: seq<Step>)
    requires a != b && b != Wire.BROADCAST
    requires Wire.MAX_PACKET < |data| <= Wire.RECEIVE_BUFFER && SenderOf(data) == a && DestOf(data) == b
    ensures Possible(ss) && ss != [] && !RelayAfter(ss[..|ss| - 1]).crashed && RelayAfter(ss).crashed
  {
    ss := TwoPlayers(id, a, b, conn);
    var c := RelayAfter(ss);
    Admits(c, id, a, b, addr, data);
    hide Next, Enabled, Possible, RelayAfter;
    var s1, s2, s3, s4 := Arrive(0, UdpPeer(addr), data), Lookup(0), Admit(0, 0), Route(0, [b], {});
    Extend(ss, s1);
    Extend(ss + [s1], s2);
    Extend(ss + [s1] + [s2], s3);
    var run := ss + [s1] + [s2] + [s3];
    RoutesIntoPanic(RelayAfter(run), a, b);
    Extend(run, s4);
    ss := run + [s4];
    assert ss[..|ss| - 1] == run;
  }
}
