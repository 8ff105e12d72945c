/**
 The relay's session manager in its own form: session objects and tables updated in place. Each
 method is one critical section and is proved to be the step of the session table it stands for.
 */
module SessionManager {
  import opened Bytes
  import opened PlayerTransport
  import opened SessionTable
  import opened ReaperCycle

  /** A clock that never steps back. */
  class Clock {
    var last: Time

    constructor ()
    {
      last := 0;
    }

    method Now() returns (now: Time)
      modifies this
      ensures now == last >= old(last)
    {
      var reading: Time := *;
      if reading > last {
        last := reading;
      }
      now := last;
    }
  }

  class SessionObject {
    ghost const ref: Ref
    const id: SessionId
    const maxPlayers: int
    const createdAt: Time
    var players: map<PlayerId, PlayerInfo>

    ghost function Value(): Session
      reads this
    {
      Session(id, maxPlayers, createdAt, players)
    }

    constructor (ghost ref: Ref, id: SessionId, maxPlayers: int, now: Time)
      ensures this.ref == ref && Value() == Session(id, maxPlayers, now, map[])
    {
      this.ref := ref;
      this.id := id;
      this.maxPlayers := maxPlayers;
      createdAt := now;
      players := map[];
    }

    method AddPlayer(pid: PlayerId, login: string) returns (ok: bool)
      modifies this
      ensures ok <==> pid !in old(players) && |old(players)| < maxPlayers
      ensures players == if ok then old(players)[pid := NewPlayer(login)] else old(players)
    {
      if pid in players || |players| >= maxPlayers {
        return false;
      }
      players := players[pid := NewPlayer(login)];
      ok := true;
    }

    method ResetPlayerTransport(pid: PlayerId)
      modifies this
      ensures players == if pid in old(players) then old(players)[pid := ResetTransport(old(players)[pid])] else old(players)
    {
      if pid in players {
        players := players[pid := players[pid].(addr := None, tcpConn := None, tcpIp := None, lastSeen := None)];
      }
    }

    method RemovePlayer(pid: PlayerId) returns (existed: bool)
      modifies this
      ensures existed <==> pid in old(players)
      ensures players == old(players) - {pid}
    {
      existed := pid in players;
      players := players - {pid};
    }

    /** Counts the packet in place and says whether the player is within its rate. */
    method CheckRate(pid: PlayerId, second: int) returns (within: bool)
      requires pid in players
      modifies this
      ensures pid in players
      ensures (players[pid], within) == PlayerTransport.CheckRate(old(players)[pid], second)
      ensures players == old(players)[pid := players[pid]]
    {
      var p := players[pid];
      if p.rateSecond != second {
        p := p.(rateSecond := second, ratePkts := 0);
      }
      p := p.(ratePkts := Increment32(p.ratePkts));
      players := players[pid := p];
      within := p.ratePkts <= MAX_PACKETS_PER_SECOND;
    }

    method UpdatePlayerAddr(pid: PlayerId, addr: AddrPort, now: Time) returns (v: Verdict)
      modifies this
      ensures pid !in old(players) ==> v == Unknown && players == old(players)
      ensures pid in old(players) ==>
              var (p, w) := Receive(old(players)[pid], UdpPeer(addr), now);
              v == w && players == old(players)[pid := p]
    {
      if pid !in players {
        return Unknown;
      }
      if players[pid].addr.Some? && players[pid].addr.value.ip != addr.ip {
        assert players == players[pid := players[pid]];
        return Spoofed;
      }
      var within := CheckRate(pid, UnixSecond(now));
      if !within {
        return RateLimited;
      }
      var p := players[pid];
      var wasNew := p.addr.None? && p.tcpConn.None?;
      p := p.(addr := Some(addr));
      if p.tcpConn.Some? {
        p := p.(tcpConn := None, tcpIp := None);
      }
      players := players[pid := p.(lastSeen := Some(now))];
      v := if wasNew then FirstAddr else Accepted;
    }

    /** As for UDP; the connection replaced by an accepted packet is handed back to be closed. */
    method UpdatePlayerTcp(pid: PlayerId, conn: Conn, now: Time) returns (v: Verdict, oldConn: Option<Conn>)
      modifies this
      ensures pid !in old(players) ==> v == Unknown && oldConn == None && players == old(players)
      ensures pid in old(players) ==>
              var (p, w) := Receive(old(players)[pid], TcpPeer(conn), now);
              && v == w && players == old(players)[pid := p]
              && oldConn == (if v.Passes() then old(players)[pid].tcpConn else None)
    {
      if pid !in players {
        return Unknown, None;
      }
      if players[pid].tcpIp.Some? && players[pid].tcpIp != conn.ip {
        assert players == players[pid := players[pid]];
        return Spoofed, None;
      }
      var within := CheckRate(pid, UnixSecond(now));
      if !within {
        return RateLimited, None;
      }
      var p := players[pid];
      var wasNew := p.tcpConn.None? && p.addr.None?;
      oldConn := p.tcpConn;
      p := p.(tcpConn := Some(conn));
      if p.tcpIp.None? && conn.ip.Some? {
        p := p.(tcpIp := conn.ip);
      }
      players := players[pid := p.(lastSeen := Some(now))];
      v := if wasNew then FirstAddr else Accepted;
    }

    /** Exactly the players silent for too long at `now`, each once. */
    method StalePlayers(now: Time) returns (stale: seq<PlayerId>)
      ensures forall pid :: pid in stale <==> pid in players && IsStale(Value(), players[pid], now)
      ensures forall i, j :: 0 <= i < j < |stale| ==> stale[i] != stale[j]
    {
      stale := [];
      var todo := players.Keys;
      while todo != {}
        invariant todo <= players.Keys
        invariant forall pid :: pid in stale <==> pid in players && pid !in todo && IsStale(Value(), players[pid], now)
        invariant forall i, j :: 0 <= i < j < |stale| ==> stale[i] != stale[j]
        decreases todo
      {
        var pid :| pid in todo;
        todo := todo - {pid};
        var p := players[pid];
        var since := if p.lastSeen.None? then createdAt else p.lastSeen.value;
        if now - since > PLAYER_TIMEOUT {
          stale := stale + [pid];
        }
      }
    }

    method RemovePlayerIfStale(pid: PlayerId, now: Time) returns (removed: bool, conn: Option<Conn>)
      modifies this
      ensures removed <==> pid in old(players) && IsStale(old(Value()), old(players)[pid], now)
      ensures players == if removed then old(players) - {pid} else old(players)
      ensures conn == if removed then old(players)[pid].tcpConn else None
    {
      if pid !in players {
        return false, None;
      }
      var p := players[pid];
      var since := if p.lastSeen.None? then createdAt else p.lastSeen.value;
      if now - since <= PLAYER_TIMEOUT {
        return false, None;
      }
      removed, conn := true, p.tcpConn;
      players := players - {pid};
    }
  }

  datatype ReapCandidate = ReapCandidate(id: SessionId, session: SessionObject, stale: seq<PlayerId>)

  ghost function Listed(c: ReapCandidate): Candidate {
    Candidate(c.id, c.session.ref, c.stale)
  }

  ghost function ListedAll(cs: seq<ReapCandidate>): seq<Candidate> {
    seq(|cs|, i requires 0 <= i < |cs| => Listed(cs[i]))
  }

  lemma ListedAllAppend(cs: seq<ReapCandidate>, c: ReapCandidate)
    ensures ListedAll(cs + [c]) == ListedAll(cs) + [Listed(c)]
  {
  }

  class Manager {
    var sessions: map<SessionId, SessionObject>
    var playerIndex: map<PlayerId, SessionId>
    var activePlayers: int
    var activeSessions: int
    /** Every session object ever created, by identity. */
    ghost var objects: map<Ref, SessionObject>
    ghost var next: Ref

    ghost predicate Valid()
      reads this, objects.Values
    {
      && (forall r :: r in objects ==> r < next && objects[r].ref == r)
      && (forall id :: id in sessions ==>
            sessions[id].id == id && sessions[id].ref in objects && objects[sessions[id].ref] == sessions[id])
    }

    ghost function Heap(): map<Ref, Session>
      reads this, objects.Values
    {
      map r | r in objects :: objects[r].Value()
    }

    ghost function Links(): map<SessionId, Ref>
      reads this
    {
      map id | id in sessions :: sessions[id].ref
    }

    ghost function View(): (t: Table)
      requires Valid()
      reads this, objects.Values
      ensures Linked(t) && t.sessions.Keys == sessions.Keys && |t.sessions| == |sessions|
    {
      assert Links().Keys == sessions.Keys;
      Table(next, Heap(), Links(), playerIndex, activePlayers, activeSessions)
    }

    /** Of the session objects only `s` may have changed. */
    twostate lemma HeapUpdate(s: SessionObject)
      requires old(Valid()) && objects == old(objects) && s.ref in objects && objects[s.ref] == s
      requires forall r :: r in objects && r != s.ref ==> objects[r].players == old(objects[r].players)
      ensures Heap() == old(Heap())[s.ref := s.Value()]
      ensures old(Heap())[s.ref] == old(s.Value())
    {
    }

    twostate lemma HeapUnchanged()
      requires objects == old(objects)
      requires forall r :: r in objects ==> objects[r].players == old(objects[r].players)
      ensures Heap() == old(Heap())
    {
    }

    twostate lemma LinksUpdate(id: SessionId)
      requires id !in sessions && sessions == old(sessions) - {id}
      ensures Links() == old(Links()) - {id}
    {
    }

    twostate lemma HeapGrows(s: SessionObject)
      requires s.ref !in old(objects) && objects == old(objects)[s.ref := s]
      requires forall r :: r in old(objects) ==> old(objects)[r].players == old(objects[r].players)
      ensures Heap() == old(Heap())[s.ref := s.Value()]
    {
    }

    twostate lemma LinksGrow(s: SessionObject)
      requires sessions == old(sessions)[s.id := s]
      ensures Links() == old(Links())[s.id := s.ref]
    {
    }

    constructor ()
      ensures Valid() && View() == EMPTY && objects == map[]
    {
      sessions, playerIndex := map[], map[];
      activePlayers, activeSessions := 0, 0;
      objects, next := map[], 0;
    }

    method CreateSession(id: SessionId, maxPlayers: int, now: Time) returns (s: SessionObject?)
      requires Valid()
      modifies this
      ensures Valid() && View() == Create(old(View()), id, maxPlayers, now).0
      ensures s == null <==> Create(old(View()), id, maxPlayers, now).1.None?
      ensures objects == if s == null then old(objects) else old(objects)[old(next) := s]
      ensures s != null ==> fresh(s)
    {
      hide Linked;
      if id in sessions || |sessions| >= MAX_TOTAL_SESSIONS {
        return null;
      }
      s := new SessionObject(next, id, maxPlayers, now);
      Link(s);
    }

    /** Enters a new session object under its id. */
    method Link(s: SessionObject)
      requires Valid() && s.ref == next && s.id !in sessions
      modifies this`sessions, this`activeSessions, this`objects, this`next
      ensures Valid() && objects == old(objects)[old(next) := s]
      ensures View() == old(View()).(next := old(next) + 1, heap := old(View()).heap[s.ref := s.Value()],
                                     sessions := old(View()).sessions[s.id := s.ref], activeSessions := old(activeSessions) + 1)
    {
      hide Linked, Manager.Heap, Manager.Links;
      assert next !in objects;
      sessions, activeSessions := sessions[s.id := s], activeSessions + 1;
      objects, next := objects[next := s], next + 1;
      HeapGrows(s);
      LinksGrow(s);
    }

    method DeleteSession(id: SessionId) returns (ok: bool)
      requires Valid()
      modifies this
      ensures Valid() && (View(), ok) == Delete(old(View()), id)
      ensures objects == old(objects)
    {
      hide Linked, Manager.View, Manager.Valid, Forgotten;
      if id !in sessions {
        return false;
      }
      MembersOf(id);
      var members := sessions[id].players.Keys;
      ForgetSession(id, members);
      ok := true;
    }

    method ForgetSession(id: SessionId, members: set<PlayerId>)
      requires Valid()
      modifies this`playerIndex, this`activePlayers, this`sessions, this`activeSessions
      ensures Valid()
      ensures View() == Forgotten(old(View()), id, members)
    {
      hide Linked, Manager.View, Manager.Valid;
      ForgetPlayers(members);
      Unlink(id);
    }

    lemma MembersOf(id: SessionId)
      requires Valid() && id in sessions
      ensures View().heap[View().sessions[id]].players == sessions[id].players
    {
    }

    /** Takes players out of the index, one by one, and then off the gauge. */
    method ForgetPlayers(pids: set<PlayerId>)
      requires Valid()
      modifies this`playerIndex, this`activePlayers
      ensures Valid()
      ensures View() == old(View()).(index := old(View()).index - pids, activePlayers := old(View()).activePlayers - |pids|)
    {
      RemoveFromIndex(pids);
      activePlayers := activePlayers - |pids|;
      HeapUnchanged();
    }

    method RemoveFromIndex(pids: set<PlayerId>)
      modifies this`playerIndex
      ensures playerIndex == old(playerIndex) - pids
    {
      var todo := pids;
      while todo != {}
        invariant todo <= pids
        invariant playerIndex == old(playerIndex) - (pids - todo)
        decreases todo
      {
        var pid :| pid in todo;
        playerIndex := playerIndex - {pid};
        todo := todo - {pid};
      }
      assert pids - {} == pids;
    }

    /** Takes an id out of the session map; its object lives on. */
    method Unlink(id: SessionId)
      requires Valid()
      modifies this`sessions, this`activeSessions
      ensures Valid()
      ensures View() == old(View()).(sessions := old(View()).sessions - {id}, activeSessions := old(View()).activeSessions - 1)
    {
      hide Linked;
      sessions, activeSessions := sessions - {id}, activeSessions - 1;
      HeapUnchanged();
      LinksUpdate(id);
    }

    method AddPlayerToSession(id: SessionId, pid: PlayerId, login: string) returns (result: JoinResult)
      requires Valid()
      modifies this, objects.Values
      ensures Valid() && (View(), result) == Join(old(View()), id, pid, login)
      ensures objects == old(objects)
    {
      hide Linked;
      if id !in sessions {
        return NoSuchSession;
      }
      var s := sessions[id];
      if pid in playerIndex && playerIndex[pid] == id {
        s.ResetPlayerTransport(pid);
        HeapUpdate(s);
        assert pid !in s.players ==> Heap() == old(Heap());
        return Rejoined;
      }
      if pid in playerIndex {
        LeaveOldSession(pid);
      }
      result := Register(id, pid, login);
    }

    /** The first half of a migration. */
    method LeaveOldSession(pid: PlayerId)
      requires Valid() && pid in playerIndex
      modifies this, objects.Values
      ensures Valid() && View() == Detach(old(View()), pid)
      ensures objects == old(objects) && sessions == old(sessions)
    {
      var oldId := playerIndex[pid];
      if oldId in sessions {
        DropPlayer(sessions[oldId], pid);
      } else {
        playerIndex := playerIndex - {pid};
        activePlayers := activePlayers - 1;
        HeapUnchanged();
      }
    }

    /** Takes a player out of a session object, the index and the gauge. */
    method DropPlayer(s: SessionObject, pid: PlayerId)
      requires Valid() && s.ref in objects && objects[s.ref] == s
      modifies this, s
      ensures Valid() && View() == Drop(old(View()), s.ref, pid)
      ensures objects == old(objects) && sessions == old(sessions)
    {
      hide Linked;
      var existed := s.RemovePlayer(pid);
      playerIndex := playerIndex - {pid};
      activePlayers := activePlayers - 1;
      HeapUpdate(s);
    }

    method Register(id: SessionId, pid: PlayerId, login: string) returns (result: JoinResult)
      requires Valid() && id in sessions
      modifies this, objects.Values
      ensures Valid() && (View(), result) == Attach(old(View()), id, pid, login)
      ensures objects == old(objects)
    {
      hide Linked;
      if |playerIndex| >= MAX_TOTAL_PLAYERS {
        return ServerFull;
      }
      var s := sessions[id];
      ghost var t := View();
      assert t.heap[t.sessions[id]] == s.Value();
      var ok := Enroll(s, pid, login);
      result := if ok then Joined else SessionFull;
    }

    method Enroll(s: SessionObject, pid: PlayerId, login: string) returns (ok: bool)
      requires Valid() && s.id in sessions && sessions[s.id] == s
      modifies this, s
      ensures Valid() && objects == old(objects)
      ensures ok <==> pid !in old(s.players) && |old(s.players)| < s.maxPlayers
      ensures !ok ==> View() == old(View())
      ensures ok ==> View() == SetPlayers(old(View()), s.ref, old(s.players)[pid := NewPlayer(login)])
                                 .(index := old(playerIndex)[pid := s.id], activePlayers := old(activePlayers) + 1)
    {
      hide Linked, Manager.Heap, Manager.Links;
      ok := s.AddPlayer(pid, login);
      HeapUpdate(s);
      if ok {
        IndexEnrolled(s.id, pid);
      } else {
        HeapUnchanged();
      }
    }

    method IndexEnrolled(id: SessionId, pid: PlayerId)
      requires Valid()
      modifies this`playerIndex, this`activePlayers
      ensures Valid()
      ensures View() == old(View()).(index := old(View()).index[pid := id], activePlayers := old(View()).activePlayers + 1)
    {
      hide Linked;
      playerIndex, activePlayers := playerIndex[pid := id], activePlayers + 1;
      HeapUnchanged();
    }

    method RemovePlayerFromSession(id: SessionId, pid: PlayerId) returns (ok: bool)
      requires Valid()
      modifies this, objects.Values
      ensures Valid() && (View(), ok) == Leave(old(View()), id, pid)
      ensures objects == old(objects)
    {
      hide Linked;
      if id !in sessions {
        return false;
      }
      var s := sessions[id];
      assert View().heap[View().sessions[id]] == s.Value();
      ok := pid in s.players;
      if ok {
        DropPlayer(s, pid);
      }
    }

    /** The live session of a player, found through the index. */
    method FindSessionByPlayer(pid: PlayerId) returns (s: SessionObject?)
      requires Valid()
      ensures s == null <==> pid !in playerIndex || playerIndex[pid] !in sessions
      ensures s != null ==> s == sessions[playerIndex[pid]] && s.ref in objects && objects[s.ref] == s
      ensures Inv(View()) && s != null ==> pid in s.players
      ensures Inv(View()) && s == null ==> forall id :: !IsMember(View(), id, pid)
    {
      if Inv(View()) {
        forall id
          ensures Indexed(View(), id, pid) <==> IsMember(View(), id, pid)
        {
        }
        if pid in playerIndex {
          assert Indexed(View(), playerIndex[pid], pid);
        }
      }
      if pid !in playerIndex || playerIndex[pid] !in sessions {
        return null;
      }
      s := sessions[playerIndex[pid]];
    }

    /** The lookup as the table sees it. */
    lemma FoundIn(pid: PlayerId)
      requires Valid()
      ensures var t := View(); pid in t.index && t.index[pid] in t.sessions <==> pid in playerIndex && playerIndex[pid] in sessions
      ensures pid in playerIndex && playerIndex[pid] in sessions ==>
                View().sessions[View().index[pid]] == sessions[playerIndex[pid]].ref
    {
    }

    ghost predicate Holds(s: SessionObject)
      reads this
    {
      s.ref in objects && objects[s.ref] == s
    }

    /**
     Phase 1: the sessions with a stale player or expired themselves. The clock moves on during the scan, so what was
     due at its start is listed, and what is listed was due by its end.
     */
    method ReapScan(clock: Clock) returns (cs: seq<ReapCandidate>)
      requires Valid()
      modifies clock
      ensures forall i :: 0 <= i < |cs| ==> Holds(cs[i].session)
      ensures Scanned(View(), {}, ListedAll(cs), old(clock.last), clock.last) && clock.last >= old(clock.last)
    {
      hide Manager.View, Manager.Valid, Linked;
      ghost var t, start := View(), clock.last;
      var now := clock.Now();
      cs := [];
      var todo := sessions.Keys;
      while todo != {}
        invariant todo <= sessions.Keys
        invariant clock.last >= now >= start
        invariant forall i :: 0 <= i < |cs| ==> Holds(cs[i].session)
        invariant Scanned(t, todo, ListedAll(cs), start, clock.last)
        decreases todo
      {
        var id :| id in todo;
        cs := ScanNext(id, cs, now, clock, t, todo, start);
        todo := todo - {id};
      }
    }

    /** A whole cycle that nobody interrupts: both phases, after which nothing is left that was due when it began. */
    method ReapStaleSessions(clock: Clock) returns (removedPlayers: nat, removedSessions: nat)
      requires Valid() && Inv(View())
      modifies this, objects.Values, clock
      ensures Valid() && Inv(View()) && objects == old(objects)
      ensures Pending(View(), [], old(clock.last))
      ensures View().activePlayers == old(View()).activePlayers - removedPlayers
      ensures View().activeSessions == old(View()).activeSessions - removedSessions
    {
      hide Inv, Scanned, Pending, Reached, Visits, ListedAll, Manager.View, Manager.Valid;
      ghost var t, start := View(), clock.last;
      var cs := ReapScan(clock);
      ghost var end := clock.last;
      ScanIsComplete(t, ListedAll(cs), start, end);
      ghost var stamps;
      removedPlayers, removedSessions, stamps := ReapApply(cs, clock);
      CycleIsComplete(t, ListedAll(cs), start, end, stamps, View());
    }

    method ScanNext(id: SessionId, before: seq<ReapCandidate>, now: Time, clock: Clock,
                    ghost t: Table, ghost todo: set<SessionId>, ghost start: Time)
      returns (cs: seq<ReapCandidate>)
      requires Valid() && View() == t && id in sessions && id in todo && start <= now <= clock.last
      requires Scanned(t, todo, ListedAll(before), start, clock.last)
      requires forall i :: 0 <= i < |before| ==> Holds(before[i].session)
      modifies clock
      ensures clock.last >= old(clock.last)
      ensures Scanned(t, todo - {id}, ListedAll(cs), start, clock.last)
      ensures forall i :: 0 <= i < |cs| ==> Holds(cs[i].session)
    {
      hide Scanned, RightlyListed, NothingDue, ListedAll, Linked;
      var s := sessions[id];
      assert t.sessions[id] == s.ref && t.heap[s.ref] == s.Value();
      ghost var end := clock.last;
      var c := ScanSession(id, s, now, clock, start);
      if c.Some? {
        ScanListed(t, todo, ListedAll(before), Listed(c.value), start, end, clock.last);
        ListedAllAppend(before, c.value);
        cs := before + [c.value];
      } else {
        ScanSkipped(t, todo, ListedAll(before), id, start, end, clock.last);
        cs := before;
      }
    }

    method ScanSession(id: SessionId, s: SessionObject, now: Time, clock: Clock, ghost start: Time)
      returns (c: Option<ReapCandidate>)
      requires start <= now <= clock.last
      modifies clock
      ensures clock.last >= old(clock.last)
      ensures c.Some? ==>
              c.value.id == id && c.value.session == s && RightlyListed(s.Value(), c.value.stale, start, clock.last)
      ensures c.None? ==> NothingDue(s.Value(), start)
    {
      var seen := clock.Now();
      var stale := s.StalePlayers(seen);
      forall pid | pid in s.players
        ensures IsStale(s.Value(), s.players[pid], start) ==> pid in stale
      {
      }
      var isEmpty := |s.players| == 0 && now - s.createdAt > SESSION_EMPTY_TIMEOUT;
      c := if stale != [] || isEmpty then Some(ReapCandidate(id, s, stale)) else None;
    }

    /** Phase 2's second look at one listed player. */
    method ReapListedPlayer(s: SessionObject, pid: PlayerId, now: Time) returns (removed: bool)
      requires Valid() && Holds(s)
      modifies this, s
      ensures Valid() && objects == old(objects)
      ensures (View(), removed) == ReapPlayer(old(View()), s.ref, pid, now)
    {
      ghost var t := View();
      assert t.heap[s.ref] == s.Value();
      ghost var due := pid in s.players && IsStale(s.Value(), s.players[pid], now);
      ghost var dropped := Drop(t, s.ref, pid);
      assert ReapPlayer(t, s.ref, pid, now) == if due then (dropped, true) else (t, false);
      hide Linked, ReapPlayer, Drop;
      removed := TakeIfStale(s, pid, now);
    }

    method TakeIfStale(s: SessionObject, pid: PlayerId, now: Time) returns (removed: bool)
      requires Valid() && Holds(s)
      modifies this, s
      ensures Valid() && objects == old(objects)
      ensures removed <==> pid in old(s.players) && IsStale(old(s.Value()), old(s.players)[pid], now)
      ensures View() == if removed then Drop(old(View()), s.ref, pid) else old(View())
    {
      hide Linked, IsStale;
      ghost var t := View();
      var conn;
      removed, conn := s.RemovePlayerIfStale(pid, now);
      HeapUpdate(s);
      if removed {
        ForgetReaped(t, s, pid);
      } else {
        HeapUnchanged();
      }
    }

    /** After the object lost the player: the index and the gauge follow. */
    method ForgetReaped(ghost t: Table, s: SessionObject, pid: PlayerId)
      requires Valid() && s.ref in t.heap
      requires View() == SetPlayers(t, s.ref, t.heap[s.ref].players - {pid})
      modifies this`playerIndex, this`activePlayers
      ensures Valid() && View() == Drop(t, s.ref, pid)
    {
      hide Linked;
      playerIndex, activePlayers := playerIndex - {pid}, activePlayers - 1;
      HeapUnchanged();
    }

    /** Phase 2's look at a listed session, after its players. */
    method ReapListedSession(s: SessionObject, id: SessionId, now: Time) returns (removed: bool)
      requires Valid() && Holds(s)
      modifies this`sessions, this`activeSessions
      ensures Valid()
      ensures (View(), removed) == ReapSession(old(View()), s.ref, id, now)
    {
      ghost var t := View();
      assert t.heap[s.ref] == s.Value();
      removed := |s.players| == 0 && now - s.createdAt > SESSION_EMPTY_TIMEOUT;
      ghost var unlinked := t.(sessions := t.sessions - {id}, activeSessions := t.activeSessions - 1);
      assert ReapSession(t, s.ref, id, now) == if removed then (unlinked, true) else (t, false);
      hide Linked, ReapSession, Manager.View, Manager.Valid;
      if removed {
        Unlink(id);
        assert View() == unlinked;
      }
    }

    /** Phase 2: each candidate's listed players, and then the candidate itself. */
    method ReapApply(cs: seq<ReapCandidate>, clock: Clock)
      returns (removedPlayers: nat, removedSessions: nat, ghost stamps: seq<Time>)
      requires Valid() && forall i :: 0 <= i < |cs| ==> Holds(cs[i].session)
      modifies this, objects.Values, clock
      ensures Valid() && objects == old(objects)
      ensures Reached(old(View()), Visits(ListedAll(cs)), old(clock.last), stamps, View(), [])
      ensures View().activePlayers == old(View()).activePlayers - removedPlayers
      ensures View().activeSessions == old(View()).activeSessions - removedSessions
    {
      ghost var t0, todo0, start := View(), Visits(ListedAll(cs)), clock.last;
      removedPlayers, removedSessions, stamps := 0, 0, [];
      var now := clock.Now();
      assert cs[0..] == cs;
      ghost var t := t0;
      hide Reached, Visits, Linked, Remaining, ListedAll, Manager.View, Manager.Valid;
      var i := 0;
      ghost var rest := todo0;
      while i < |cs|
        invariant 0 <= i <= |cs| && rest == Visits(ListedAll(cs[i..]))
        invariant Valid() && objects == old(objects) && View() == t && clock.last >= now >= start
        invariant Reached(t0, todo0, start, stamps, t, rest)
        invariant t.activePlayers == t0.activePlayers - removedPlayers
        invariant t.activeSessions == t0.activeSessions - removedSessions
      {
        UnrollVisits(cs, i);
        var n, gone;
        rest := Visits(ListedAll(cs[i + 1..]));
        n, gone, stamps, t := VisitCandidate(cs[i], now, clock, t0, todo0, start, stamps, rest);
        removedPlayers := removedPlayers + n;
        removedSessions := removedSessions + (if gone then 1 else 0);
        i := i + 1;
      }
    }

    method VisitCandidate(c: ReapCandidate, now: Time, clock: Clock, ghost t0: Table, ghost todo0: seq<Visit>,
                          ghost start: Time, ghost before: seq<Time>, ghost rest: seq<Visit>)
      returns (n: nat, gone: bool, ghost stamps: seq<Time>, ghost t: Table)
      requires Valid() && Holds(c.session) && Linked(t0) && clock.last >= now >= start
      requires Reached(t0, todo0, start, before, View(), Remaining(Listed(c), 0, rest))
      modifies this, c.session, clock
      ensures Valid() && objects == old(objects) && View() == t && clock.last >= old(clock.last)
      ensures Reached(t0, todo0, start, stamps, t, rest)
      ensures t.activePlayers == old(View()).activePlayers - n
      ensures t.activeSessions == old(View()).activeSessions - (if gone then 1 else 0)
    {
      hide Linked, Reached, ReapSession, Remaining, Manager.View, Manager.Valid;
      n, stamps, t := ReapListedPlayers(c, clock, t0, todo0, start, before, rest);
      SessionVisit(t0, todo0, start, stamps, t, Listed(c), rest, now);
      gone := ReapListedSession(c.session, c.id, now);
      stamps, t := stamps + [now], ReapSession(t, c.session.ref, c.id, now).0;
    }

    method ReapListedPlayers(c: ReapCandidate, clock: Clock, ghost t0: Table, ghost todo0: seq<Visit>,
                             ghost start: Time, ghost before: seq<Time>, ghost rest: seq<Visit>)
      returns (removed: nat, ghost stamps: seq<Time>, ghost t: Table)
      requires Valid() && Holds(c.session) && Linked(t0) && clock.last >= start
      requires Reached(t0, todo0, start, before, View(), Remaining(Listed(c), 0, rest))
      modifies this, c.session, clock
      ensures Valid() && objects == old(objects) && View() == t && clock.last >= old(clock.last)
      ensures Reached(t0, todo0, start, stamps, t, Remaining(Listed(c), |c.stale|, rest)) && Listed(c).r in t.heap && Linked(t)
      ensures t.activePlayers == old(View()).activePlayers - removed
      ensures t.activeSessions == old(View()).activeSessions
    {
      removed, stamps, t := 0, before, View();
      ghost var t1, c' := t, Listed(c);
      assert c'.r in t.heap;
      hide Linked, Reached, ReapPlayer, Remaining, Manager.View, Manager.Valid;
      var k := 0;
      while k < |c.stale|
        invariant 0 <= k <= |c.stale|
        invariant Valid() && objects == old(objects) && View() == t && clock.last >= old(clock.last)
        invariant Reached(t0, todo0, start, stamps, t, Remaining(c', k, rest)) && c'.r in t.heap && Linked(t)
        invariant t.activePlayers == t1.activePlayers - removed && t.activeSessions == t1.activeSessions
      {
        var gone;
        gone, stamps, t := VisitListed(c, k, clock, t0, todo0, start, stamps, t, rest);
        removed := removed + (if gone then 1 else 0);
        k := k + 1;
      }
    }

    method VisitListed(c: ReapCandidate, k: nat, clock: Clock, ghost t0: Table, ghost todo0: seq<Visit>,
                       ghost start: Time, ghost before: seq<Time>, ghost t: Table, ghost rest: seq<Visit>)
      returns (gone: bool, ghost stamps: seq<Time>, ghost u: Table)
      requires Valid() && Holds(c.session) && Linked(t0) && View() == t && k < |c.stale| && clock.last >= start
      requires Reached(t0, todo0, start, before, t, Remaining(Listed(c), k, rest)) && Listed(c).r in t.heap && Linked(t)
      modifies this, c.session, clock
      ensures Valid() && objects == old(objects) && View() == u && clock.last >= old(clock.last)
      ensures Reached(t0, todo0, start, stamps, u, Remaining(Listed(c), k + 1, rest)) && Listed(c).r in u.heap && Linked(u)
      ensures u.activePlayers == t.activePlayers - (if gone then 1 else 0) && u.activeSessions == t.activeSessions
    {
      hide Linked, Reached, ReapPlayer, Remaining, Manager.View, Manager.Valid;
      ghost var now;
      gone, now, u := LookAgain(c.session, c.stale[k], clock);
      PlayerVisit(t0, todo0, start, before, t, Listed(c), k, rest, now);
      stamps := before + [now];
    }

    method LookAgain(s: SessionObject, pid: PlayerId, clock: Clock) returns (gone: bool, ghost now: Time, ghost u: Table)
      requires Valid() && Holds(s)
      modifies this, s, clock
      ensures Valid() && objects == old(objects) && View() == u && clock.last >= now >= old(clock.last)
      ensures (u, gone) == ReapPlayer(old(View()), s.ref, pid, now)
    {
      hide Linked, ReapPlayer;
      ghost var t := View();
      var at := clock.Now();
      assert View() == t;
      gone := ReapListedPlayer(s, pid, at);
      now, u := at, View();
    }
  }

  /** What is left of a candidate's visits after its first k players, and of the visits after it. */
  ghost function Remaining(c: Candidate, k: nat, rest: seq<Visit>): seq<Visit>
    requires k <= |c.stale|
  {
    PlayerVisits(c)[k..] + [VisitSession(c.id, c.r)] + rest
  }

  lemma PlayerVisit(t0: Table, todo0: seq<Visit>, start: Time, stamps: seq<Time>, t: Table, c: Candidate, k: nat,
                    rest: seq<Visit>, now: Time)
    requires now >= start && Linked(t0) && Linked(t) && k < |c.stale| && c.r in t.heap
    requires Reached(t0, todo0, start, stamps, t, Remaining(c, k, rest))
    ensures var (u, fired) := ReapPlayer(t, c.r, c.stale[k], now);
      && Reached(t0, todo0, start, stamps + [now], u, Remaining(c, k + 1, rest))
      && u.activePlayers == t.activePlayers - (if fired then 1 else 0) && u.activeSessions == t.activeSessions
      && c.r in u.heap && Linked(u)
  {
    var todo := Remaining(c, k, rest);
    assert todo[0] == VisitPlayer(c.id, c.r, c.stale[k]);
    assert todo[1..] == Remaining(c, k + 1, rest);
    hide Reached;
    ReachedNext(t0, todo0, start, stamps, t, todo, now);
  }

  lemma SessionVisit(t0: Table, todo0: seq<Visit>, start: Time, stamps: seq<Time>, t: Table, c: Candidate, rest: seq<Visit>,
                     now: Time)
    requires now >= start && Linked(t0) && Linked(t) && c.r in t.heap
    requires Reached(t0, todo0, start, stamps, t, Remaining(c, |c.stale|, rest))
    ensures var (u, fired) := ReapSession(t, c.r, c.id, now);
      && Reached(t0, todo0, start, stamps + [now], u, rest)
      && u.activeSessions == t.activeSessions - (if fired then 1 else 0) && u.activePlayers == t.activePlayers
  {
    var todo := Remaining(c, |c.stale|, rest);
    assert todo == [VisitSession(c.id, c.r)] + rest;
    assert todo[1..] == rest;
    hide Reached;
    ReachedNext(t0, todo0, start, stamps, t, todo, now);
  }

  lemma UnrollVisits(cs: seq<ReapCandidate>, i: nat)
    requires i < |cs|
    ensures Visits(ListedAll(cs[i..])) == Remaining(Listed(cs[i]), 0, Visits(ListedAll(cs[i + 1..])))
  {
    assert ListedAll(cs[i..])[0] == Listed(cs[i]) && ListedAll(cs[i..])[1..] == ListedAll(cs[i + 1..]);
  }

  /** Every player listed is stale by `end`, every player stale at `start` is listed, and there is a reason to list. */
  ghost predicate RightlyListed(s: Session, stale: seq<PlayerId>, start: Time, end: Time) {
    && (forall pid :: pid in stale ==> pid in s.players && IsStale(s, s.players[pid], end))
    && (forall pid :: pid in s.players && IsStale(s, s.players[pid], start) ==> pid in stale)
    && (stale != [] || IsExpired(s, end))
  }

  ghost predicate NothingDue(s: Session, now: Time) {
    !IsExpired(s, now) && forall pid :: pid in s.players ==> !IsStale(s, s.players[pid], now)
  }

  ghost predicate IsListed(cs: seq<Candidate>, id: SessionId) {
    exists i :: 0 <= i < |cs| && cs[i].id == id
  }

  /** All sessions but those in `todo` have been judged: listed rightly and once, or left out with nothing due. */
  ghost predicate Scanned(t: Table, todo: set<SessionId>, cs: seq<Candidate>, start: Time, end: Time)
    requires Linked(t)
  {
    && ListedIn(t, cs)
    && (forall i :: 0 <= i < |cs| ==> cs[i].id !in todo && RightlyListed(t.heap[cs[i].r], cs[i].stale, start, end))
    && (forall id :: id in t.sessions && id !in todo ==> IsListed(cs, id) || NothingDue(t.heap[t.sessions[id]], start))
  }

  /** Everything due at the start of a scan is listed, with what is due in it. */
  lemma ScanIsComplete(t: Table, cs: seq<Candidate>, start: Time, end: Time)
    requires Inv(t) && Scanned(t, {}, cs, start, end)
    ensures ListedIn(t, cs) && Pending(t, Visits(cs), start)
  {
    hide GaugesExact, WithinLimits, IndexAgrees, Visits;
    forall id, pid
      ensures PlayerPending(t, Visits(cs), start, id, pid)
    {
      if IsMember(t, id, pid) && LongSilent(t.heap[t.sessions[id]], t.heap[t.sessions[id]].players[pid], start) {
        assert IsStale(t.heap[t.sessions[id]], t.heap[t.sessions[id]].players[pid], start);
        var i :| 0 <= i < |cs| && cs[i].id == id;
        PlayerIsVisited(cs, i, pid);
      }
    }
    forall id
      ensures SessionPending(t, Visits(cs), start, id)
    {
      if id in t.sessions && AllSilent(t.heap[t.sessions[id]], start) &&
         start - t.heap[t.sessions[id]].createdAt > 120_000_000_000 {
        DueIsListed(t, cs, start, end, id);
        var i :| 0 <= i < |cs| && cs[i].id == id;
        SessionIsVisited(cs, i);
      }
    }
  }

  lemma DueIsListed(t: Table, cs: seq<Candidate>, start: Time, end: Time, id: SessionId)
    requires Linked(t) && Scanned(t, {}, cs, start, end) && id in t.sessions
    requires AllSilent(t.heap[t.sessions[id]], start) && start - t.heap[t.sessions[id]].createdAt > 120_000_000_000
    ensures IsListed(cs, id)
  {
    var s := t.heap[t.sessions[id]];
    if |s.players| > 0 {
      assert s.players.Keys != {};
      var pid :| pid in s.players.Keys;
      assert IsStale(s, s.players[pid], start);
    }
    assert !NothingDue(s, start);
  }

  lemma CycleIsComplete(t: Table, cs: seq<Candidate>, start: Time, end: Time, stamps: seq<Time>, u: Table)
    requires Inv(t) && ListedIn(t, cs) && Pending(t, Visits(cs), start) && start <= end
    requires Reached(t, Visits(cs), end, stamps, u, [])
    ensures Inv(u) && Pending(u, [], start)
  {
    hide Inv, Pending, Visits, ListedIn;
    ListedVisits(t, cs);
    VisitsFollow(cs);
    NothingDueIsLeft(t, Visits(cs), start, stamps);
    hide Cycle;
  }

  lemma ScannedLater(t: Table, todo: set<SessionId>, cs: seq<Candidate>, start: Time, end: Time, later: Time)
    requires Linked(t) && end <= later && Scanned(t, todo, cs, start, end)
    ensures Scanned(t, todo, cs, start, later)
  {
  }

  lemma ScanListed(t: Table, todo: set<SessionId>, cs: seq<Candidate>, c: Candidate, start: Time, end: Time, later: Time)
    requires Linked(t) && end <= later && Scanned(t, todo, cs, start, end)
    requires c.id in todo && c.id in t.sessions && t.sessions[c.id] == c.r
    requires RightlyListed(t.heap[c.r], c.stale, start, later)
    ensures Scanned(t, todo - {c.id}, cs + [c], start, later)
  {
    ScannedLater(t, todo, cs, start, end, later);
    hide RightlyListed, NothingDue, Linked;
    var all := cs + [c];
    forall id | IsListed(cs, id) || id == c.id
      ensures IsListed(all, id)
    {
      if id == c.id {
        assert all[|cs|].id == id;
      } else {
        var i :| 0 <= i < |cs| && cs[i].id == id;
        assert all[i].id == id;
      }
    }
  }

  lemma ScanSkipped(t: Table, todo: set<SessionId>, cs: seq<Candidate>, id: SessionId, start: Time, end: Time, later: Time)
    requires Linked(t) && end <= later && Scanned(t, todo, cs, start, end)
    requires id in todo && id in t.sessions && NothingDue(t.heap[t.sessions[id]], start)
    ensures Scanned(t, todo - {id}, cs, start, later)
  {
    ScannedLater(t, todo, cs, start, end, later);
  }
}
