/**
 The relay's session table as a state machine with one step per critical section. A session is a
 heap object with its own identity: deleting it from the table does not empty it, and a reaper or
 a packet handler may still hold a reference to it.
 */
module SessionTable {
  import opened Bytes
  import opened PlayerTransport

  const PLAYER_TIMEOUT: Time := 90 * SECOND
  const SESSION_EMPTY_TIMEOUT: Time := 120 * SECOND
  const MAX_TOTAL_SESSIONS := 15000
  const MAX_TOTAL_PLAYERS := 50000

  type PlayerId = u32
  type SessionId = string
  type Ref = nat

  datatype Session = Session(id: SessionId, maxPlayers: int, createdAt: Time, players: map<PlayerId, PlayerInfo>)

  /** `heap` holds every session ever created, `sessions` the live ones. */
  datatype Table = Table(
    next: Ref,
    heap: map<Ref, Session>,
    sessions: map<SessionId, Ref>,
    index: map<PlayerId, SessionId>,
    activePlayers: int,
    activeSessions: int)

  const EMPTY := Table(0, map[], map[], map[], 0, 0)

  // ---------------------------------------------------------------- operations

  function SetPlayers(t: Table, r: Ref, players: map<PlayerId, PlayerInfo>): (u: Table)
    requires r in t.heap
    ensures Linked(t) ==> Linked(u)
  {
    t.(heap := t.heap[r := t.heap[r].(players := players)])
  }

  function Create(t: Table, id: SessionId, maxPlayers: int, now: Time): (res: (Table, Option<Ref>))
    ensures Linked(t) ==> Linked(res.0)
  {
    if id in t.sessions || |t.sessions| >= MAX_TOTAL_SESSIONS then (t, None)
    else
      (t.(next := t.next + 1,
          heap := t.heap[t.next := Session(id, maxPlayers, now, map[])],
          sessions := t.sessions[id := t.next],
          activeSessions := t.activeSessions + 1),
       Some(t.next))
  }

  function Forgotten(t: Table, id: SessionId, members: set<PlayerId>): Table {
    t.(index := t.index - members, activePlayers := t.activePlayers - |members|,
       sessions := t.sessions - {id}, activeSessions := t.activeSessions - 1)
  }

  /** Drops the session and the index entries of its players; the session object keeps its players. */
  function Delete(t: Table, id: SessionId): (res: (Table, bool))
    requires Linked(t)
    ensures Linked(res.0)
  {
    if id !in t.sessions then (t, false) else (Forgotten(t, id, t.heap[t.sessions[id]].players.Keys), true)
  }

  datatype JoinResult = Joined | Rejoined | NoSuchSession | ServerFull | SessionFull

  /** First half of a join: an entry in another session is given up. */
  function Detach(t: Table, pid: PlayerId): (u: Table)
    requires Linked(t)
    ensures Linked(u) && u.sessions == t.sessions
  {
    if pid !in t.index then t
    else
      var u := t.(index := t.index - {pid}, activePlayers := t.activePlayers - 1);
      if t.index[pid] !in t.sessions then u
      else SetPlayers(u, t.sessions[t.index[pid]], t.heap[t.sessions[t.index[pid]]].players - {pid})
  }

  function Attach(t: Table, id: SessionId, pid: PlayerId, login: string): (res: (Table, JoinResult))
    requires Linked(t) && id in t.sessions
    ensures Linked(res.0)
  {
    var r := t.sessions[id];
    var s := t.heap[r];
    if |t.index| >= MAX_TOTAL_PLAYERS then (t, ServerFull)
    else if pid in s.players || |s.players| >= s.maxPlayers then (t, SessionFull)
    else
      (SetPlayers(t, r, s.players[pid := NewPlayer(login)])
         .(index := t.index[pid := id], activePlayers := t.activePlayers + 1),
       Joined)
  }

  function Join(t: Table, id: SessionId, pid: PlayerId, login: string): (res: (Table, JoinResult))
    requires Linked(t)
    ensures Linked(res.0)
  {
    if id !in t.sessions then (t, NoSuchSession)
    else if pid in t.index && t.index[pid] == id then
      var r := t.sessions[id];
      var players := t.heap[r].players;
      (if pid in players then SetPlayers(t, r, players[pid := ResetTransport(players[pid])]) else t, Rejoined)
    else Attach(Detach(t, pid), id, pid, login)
  }

  function Leave(t: Table, id: SessionId, pid: PlayerId): (res: (Table, bool))
    requires Linked(t)
    ensures Linked(res.0)
  {
    if id !in t.sessions || pid !in t.heap[t.sessions[id]].players then (t, false)
    else
      var r := t.sessions[id];
      (SetPlayers(t, r, t.heap[r].players - {pid})
         .(index := t.index - {pid}, activePlayers := t.activePlayers - 1),
       true)
  }

  /** A packet of `pid`, handled under the lock of session object `r` alone. */
  function Deliver(t: Table, r: Ref, pid: PlayerId, from: Endpoint, now: Time): (res: (Table, Verdict))
    requires r in t.heap
    ensures Linked(t) ==> Linked(res.0)
  {
    var players := t.heap[r].players;
    if pid !in players then (t, Unknown)
    else
      var (p, v) := Receive(players[pid], from, now);
      (SetPlayers(t, r, players[pid := p]), v)
  }

  /** A player that never sent since joining is measured from the creation of its session. */
  predicate IsStale(s: Session, p: PlayerInfo, now: Time) {
    if p.lastSeen.None? then now - s.createdAt > PLAYER_TIMEOUT else now - p.lastSeen.value > PLAYER_TIMEOUT
  }

  predicate IsExpired(s: Session, now: Time) {
    |s.players| == 0 && now - s.createdAt > SESSION_EMPTY_TIMEOUT
  }

  /** The reaper's second look at a player it listed, with a reference it captured earlier. */
  function ReapPlayer(t: Table, r: Ref, pid: PlayerId, now: Time): (res: (Table, bool))
    requires r in t.heap
    ensures Linked(t) ==> Linked(res.0)
  {
    var s := t.heap[r];
    if pid !in s.players || !IsStale(s, s.players[pid], now) then (t, false)
    else
      (SetPlayers(t, r, s.players - {pid}).(index := t.index - {pid}, activePlayers := t.activePlayers - 1), true)
  }

  function ReapSession(t: Table, r: Ref, id: SessionId, now: Time): (res: (Table, bool))
    requires r in t.heap
    ensures Linked(t) ==> Linked(res.0)
  {
    if !IsExpired(t.heap[r], now) then (t, false)
    else (t.(sessions := t.sessions - {id}, activeSessions := t.activeSessions - 1), true)
  }

  // ---------------------------------------------------------------- the invariant

  /** Live sessions are heap objects that know their own id. */
  ghost predicate Linked(t: Table) {
    && (forall r :: r in t.heap ==> r < t.next)
    && (forall id :: id in t.sessions ==> t.sessions[id] in t.heap && t.heap[t.sessions[id]].id == id)
  }

  ghost predicate IsMember(t: Table, id: SessionId, pid: PlayerId)
    requires Linked(t)
  {
    id in t.sessions && pid in t.heap[t.sessions[id]].players
  }

  ghost predicate Indexed(t: Table, id: SessionId, pid: PlayerId) {
    pid in t.index && t.index[pid] == id
  }

  /** A player is indexed under a session exactly when that session is live and holds the player. */
  ghost predicate IndexAgrees(t: Table)
    requires Linked(t)
  {
    forall id, pid :: Indexed(t, id, pid) <==> IsMember(t, id, pid)
  }

  ghost predicate GaugesExact(t: Table) {
    t.activePlayers == |t.index| && t.activeSessions == |t.sessions|
  }

  ghost predicate WithinLimits(t: Table) {
    && |t.sessions| <= MAX_TOTAL_SESSIONS && |t.index| <= MAX_TOTAL_PLAYERS
    && forall r :: r in t.heap ==> |t.heap[r].players| == 0 || |t.heap[r].players| <= t.heap[r].maxPlayers
  }

  ghost predicate Inv(t: Table) {
    Linked(t) && IndexAgrees(t) && GaugesExact(t) && WithinLimits(t)
  }

  // ---------------------------------------------------------------- every operation keeps it

  lemma RemoveKeys<K, V>(m: map<K, V>, ks: set<K>)
    requires ks <= m.Keys
    ensures |m - ks| == |m| - |ks|
  {
  }

  lemma CreateKeepsInv(t: Table, id: SessionId, maxPlayers: int, now: Time)
    requires Inv(t)
    ensures Inv(Create(t, id, maxPlayers, now).0)
  {
    var u := Create(t, id, maxPlayers, now).0;
    if u != t {
      forall id', p
        ensures Indexed(u, id', p) <==> IsMember(u, id', p)
      {
        assert Indexed(t, id', p) <==> IsMember(t, id', p);
      }
    }
  }

  lemma DeleteAgrees(t: Table, id: SessionId, id': SessionId, p: PlayerId)
    requires Inv(t) && id in t.sessions
    ensures Linked(Delete(t, id).0)
    ensures Indexed(Delete(t, id).0, id', p) <==> IsMember(Delete(t, id).0, id', p)
  {
    assert Indexed(t, id', p) <==> IsMember(t, id', p);
    assert Indexed(t, id, p) <==> IsMember(t, id, p);
  }

  lemma DeleteKeepsInv(t: Table, id: SessionId)
    requires Inv(t)
    ensures Inv(Delete(t, id).0)
  {
    if id in t.sessions {
      var members := t.heap[t.sessions[id]].players.Keys;
      forall p | p in members
        ensures p in t.index
      {
        assert IsMember(t, id, p);
      }
      RemoveKeys(t.index, members);
      RemoveKeys(t.sessions, {id});
      forall id', p
        ensures Linked(Delete(t, id).0)
        ensures Indexed(Delete(t, id).0, id', p) <==> IsMember(Delete(t, id).0, id', p)
      {
        DeleteAgrees(t, id, id', p);
      }
    }
  }

  /** One live session, the index and the gauge lose a player together. */
  function Drop(t: Table, r: Ref, pid: PlayerId): Table
    requires r in t.heap
  {
    SetPlayers(t, r, t.heap[r].players - {pid}).(index := t.index - {pid}, activePlayers := t.activePlayers - 1)
  }

  lemma DropAgrees(t: Table, id: SessionId, pid: PlayerId, id': SessionId, p: PlayerId)
    requires Inv(t) && IsMember(t, id, pid)
    ensures Linked(Drop(t, t.sessions[id], pid))
    ensures Indexed(Drop(t, t.sessions[id], pid), id', p) <==> IsMember(Drop(t, t.sessions[id], pid), id', p)
  {
    assert Indexed(t, id', p) <==> IsMember(t, id', p);
    assert Indexed(t, id, p) <==> IsMember(t, id, p);
  }

  lemma DropKeepsInv(t: Table, id: SessionId, pid: PlayerId)
    requires Inv(t) && IsMember(t, id, pid)
    ensures Inv(Drop(t, t.sessions[id], pid))
    ensures |Drop(t, t.sessions[id], pid).index| == |t.index| - 1
  {
    var r := t.sessions[id];
    assert Indexed(t, id, pid);
    RemoveKeys(t.index, {pid});
    RemoveKeys(t.heap[r].players, {pid});
    forall id', p
      ensures Linked(Drop(t, r, pid))
      ensures Indexed(Drop(t, r, pid), id', p) <==> IsMember(Drop(t, r, pid), id', p)
    {
      DropAgrees(t, id, pid, id', p);
    }
  }

  lemma DetachKeepsInv(t: Table, pid: PlayerId)
    requires Inv(t)
    ensures Inv(Detach(t, pid))
    ensures pid !in Detach(t, pid).index
    ensures Detach(t, pid).sessions == t.sessions
    ensures pid in t.index ==> |Detach(t, pid).index| == |t.index| - 1
  {
    if pid in t.index {
      assert Indexed(t, t.index[pid], pid) && IsMember(t, t.index[pid], pid);
      DropKeepsInv(t, t.index[pid], pid);
      assert Detach(t, pid) == Drop(t, t.sessions[t.index[pid]], pid);
    }
  }

  lemma AttachAgrees(t: Table, id: SessionId, pid: PlayerId, login: string, id': SessionId, p: PlayerId)
    requires Inv(t) && id in t.sessions && pid !in t.index
    ensures Linked(Attach(t, id, pid, login).0)
    ensures Indexed(Attach(t, id, pid, login).0, id', p) <==> IsMember(Attach(t, id, pid, login).0, id', p)
  {
    assert Indexed(t, id', p) <==> IsMember(t, id', p);
  }

  lemma AttachKeepsInv(t: Table, id: SessionId, pid: PlayerId, login: string)
    requires Inv(t) && id in t.sessions && pid !in t.index
    ensures Inv(Attach(t, id, pid, login).0)
  {
    forall id', p
      ensures Linked(Attach(t, id, pid, login).0)
      ensures Indexed(Attach(t, id, pid, login).0, id', p) <==> IsMember(Attach(t, id, pid, login).0, id', p)
    {
      AttachAgrees(t, id, pid, login, id', p);
    }
  }

  /** Players rewritten in place, with the same players present, leave the invariant alone. */
  lemma RewriteKeepsInv(t: Table, r: Ref, players: map<PlayerId, PlayerInfo>)
    requires Inv(t) && r in t.heap && players.Keys == t.heap[r].players.Keys
    ensures Inv(SetPlayers(t, r, players))
  {
    var u := SetPlayers(t, r, players);
    assert |players| == |players.Keys| && |t.heap[r].players| == |t.heap[r].players.Keys|;
    forall id', p
      ensures Indexed(u, id', p) <==> IsMember(u, id', p)
    {
      assert Indexed(t, id', p) <==> IsMember(t, id', p);
    }
  }

  lemma JoinKeepsInv(t: Table, id: SessionId, pid: PlayerId, login: string)
    requires Inv(t)
    ensures Inv(Join(t, id, pid, login).0)
  {
    if id in t.sessions {
      if pid in t.index && t.index[pid] == id {
        var players := t.heap[t.sessions[id]].players;
        assert Indexed(t, id, pid) && IsMember(t, id, pid);
        RewriteKeepsInv(t, t.sessions[id], players[pid := ResetTransport(players[pid])]);
      } else {
        DetachKeepsInv(t, pid);
        AttachKeepsInv(Detach(t, pid), id, pid, login);
      }
    }
  }

  lemma LeaveKeepsInv(t: Table, id: SessionId, pid: PlayerId)
    requires Inv(t)
    ensures Inv(Leave(t, id, pid).0)
  {
    if Leave(t, id, pid).1 {
      assert IsMember(t, id, pid);
      DropKeepsInv(t, id, pid);
    }
  }

  lemma DeliverKeepsInv(t: Table, r: Ref, pid: PlayerId, from: Endpoint, now: Time)
    requires Inv(t) && r in t.heap
    ensures Inv(Deliver(t, r, pid, from, now).0)
  {
    var players := t.heap[r].players;
    if pid in players {
      RewriteKeepsInv(t, r, players[pid := Receive(players[pid], from, now).0]);
    }
  }

  // ---------------------------------------------------------------- what the invariant buys

  /** No player is in two live sessions. */
  lemma MembershipIsExclusive(t: Table, id: SessionId, id': SessionId, pid: PlayerId)
    requires Inv(t) && IsMember(t, id, pid) && IsMember(t, id', pid)
    ensures id == id'
  {
  }

  ghost function Pick(ids: set<SessionId>): SessionId
    requires ids != {}
  {
    var id :| id in ids; id
  }

  /** Player counts summed over a set of live sessions. */
  ghost function TotalPlayers(t: Table, ids: set<SessionId>): nat
    requires Linked(t) && ids <= t.sessions.Keys
    decreases |ids|
  {
    if ids == {} then 0
    else
      var id := Pick(ids);
      |t.heap[t.sessions[id]].players| + TotalPlayers(t, ids - {id})
  }

  ghost function IndexedIn(t: Table, ids: set<SessionId>): set<PlayerId> {
    set pid | pid in t.index && t.index[pid] in ids
  }

  lemma IndexedInSplits(t: Table, ids: set<SessionId>, id: SessionId)
    requires Inv(t) && id in ids && ids <= t.sessions.Keys
    ensures |IndexedIn(t, ids)| == |t.heap[t.sessions[id]].players| + |IndexedIn(t, ids - {id})|
  {
    hide GaugesExact, WithinLimits;
    var here, rest := t.heap[t.sessions[id]].players.Keys, IndexedIn(t, ids - {id});
    forall pid
      ensures pid in here <==> Indexed(t, id, pid)
    {
      assert Indexed(t, id, pid) <==> IsMember(t, id, pid);
    }
    assert IndexedIn(t, ids) == here + rest;
    assert here !! rest;
  }

  lemma {:induction false} TotalCountsIndex(t: Table, ids: set<SessionId>)
    requires Inv(t) && ids <= t.sessions.Keys
    ensures TotalPlayers(t, ids) == |IndexedIn(t, ids)|
    decreases |ids|
  {
    if ids == {} {
      assert IndexedIn(t, ids) == {};
    } else {
      var id := Pick(ids);
      TotalCountsIndex(t, ids - {id});
      IndexedInSplits(t, ids, id);
    }
  }

  /** The player gauge is the index size and also the sum of all session sizes; the session gauge counts the sessions. */
  lemma GaugesCountMembers(t: Table)
    requires Inv(t)
    ensures t.activePlayers == |t.index| == TotalPlayers(t, t.sessions.Keys)
    ensures t.activeSessions == |t.sessions|
  {
    TotalCountsIndex(t, t.sessions.Keys);
    forall pid | pid in t.index
      ensures t.index[pid] in t.sessions
    {
      assert Indexed(t, t.index[pid], pid);
    }
    assert IndexedIn(t, t.sessions.Keys) == t.index.Keys;
  }

  /** When joins fail. A migrating player is refused only by a full target session, and is then registered nowhere. */
  lemma JoinOutcome(t: Table, id: SessionId, pid: PlayerId, login: string)
    requires Inv(t)
    ensures Join(t, id, pid, login).1 == NoSuchSession <==> id !in t.sessions
    ensures Join(t, id, pid, login).1 == Rejoined <==> IsMember(t, id, pid)
    ensures Join(t, id, pid, login).1 == ServerFull <==>
            id in t.sessions && pid !in t.index && |t.index| == 50000
    ensures Join(t, id, pid, login).1 == SessionFull <==>
            && id in t.sessions && !IsMember(t, id, pid)
            && (pid in t.index || |t.index| < 50000)
            && |t.heap[t.sessions[id]].players| >= t.heap[t.sessions[id]].maxPlayers
    ensures Join(t, id, pid, login).1 in {Joined, Rejoined} ==> Indexed(Join(t, id, pid, login).0, id, pid)
    ensures Join(t, id, pid, login).1 in {SessionFull, ServerFull} ==> pid !in Join(t, id, pid, login).0.index
  {
    assert Indexed(t, id, pid) <==> IsMember(t, id, pid);
    if id in t.sessions && !Indexed(t, id, pid) {
      DetachKeepsInv(t, pid);
      OtherSessionsUntouched(t, id, pid);
      var v := Detach(t, pid);
      assert Indexed(v, id, pid) <==> IsMember(v, id, pid);
    }
  }

  lemma OtherSessionsUntouched(t: Table, id: SessionId, pid: PlayerId)
    requires Inv(t) && id in t.sessions && !Indexed(t, id, pid)
    ensures Detach(t, pid).heap[t.sessions[id]] == t.heap[t.sessions[id]]
  {
  }
}
