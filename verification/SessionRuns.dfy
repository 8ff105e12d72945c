/**
 Whole runs of the session table: any interleaving of its critical sections, among them the single
 steps of the two-phase reaper, which acts on references captured before it took the lock.
 */
module SessionRuns {
  import opened PlayerTransport
  import opened SessionTable

  datatype Event =
    | CreateEv(id: SessionId, maxPlayers: int, now: Time)
    | DeleteEv(id: SessionId)
    | JoinEv(id: SessionId, pid: PlayerId, login: string, now: Time)
    | LeaveEv(id: SessionId, pid: PlayerId)
    | PacketEv(r: Ref, pid: PlayerId, from: Endpoint, now: Time)
    | ReapPlayerEv(r: Ref, pid: PlayerId, now: Time)
    | ReapSessionEv(r: Ref, id: SessionId, now: Time)

  /** One critical section. A reference not yet handed out does nothing. */
  function Step(t: Table, e: Event): (u: Table)
    requires Linked(t)
    ensures Linked(u)
  {
    match e
    case CreateEv(id, maxPlayers, now) => Create(t, id, maxPlayers, now).0
    case DeleteEv(id) => Delete(t, id).0
    case JoinEv(id, pid, login, _) => Join(t, id, pid, login).0
    case LeaveEv(id, pid) => Leave(t, id, pid).0
    case PacketEv(r, pid, from, now) => if r in t.heap then Deliver(t, r, pid, from, now).0 else t
    case ReapPlayerEv(r, pid, now) => if r in t.heap then ReapPlayer(t, r, pid, now).0 else t
    case ReapSessionEv(r, id, now) => if r in t.heap then ReapSession(t, r, id, now).0 else t
  }

  function Run(t: Table, es: seq<Event>): (u: Table)
    requires Linked(t)
    ensures Linked(u)
  {
    if es == [] then t else Step(Run(t, es[..|es| - 1]), es[|es| - 1])
  }

  // ---------------------------------------------------------------- when the reaper is safe

  ghost predicate IsLive(t: Table, r: Ref)
    requires Linked(t)
  {
    r in t.heap && t.heap[r].id in t.sessions && t.sessions[t.heap[r].id] == r
  }

  /** A player step of the reaper is safe unless it takes a stale player out of a session deleted meanwhile. */
  ghost predicate PlayerStepSafe(t: Table, r: Ref, pid: PlayerId, now: Time)
    requires Linked(t)
  {
    r in t.heap && pid in t.heap[r].players && IsStale(t.heap[r], t.heap[r].players[pid], now) ==> IsLive(t, r)
  }

  /** A session step is safe unless the expired object's id now names no session or one with players. */
  ghost predicate SessionStepSafe(t: Table, r: Ref, id: SessionId, now: Time)
    requires Linked(t)
  {
    r in t.heap && IsExpired(t.heap[r], now) ==> id in t.sessions && |t.heap[t.sessions[id]].players| == 0
  }

  lemma PlayerStepKeepsInvIff(t: Table, r: Ref, pid: PlayerId, now: Time)
    requires Inv(t) && r in t.heap
    ensures Inv(ReapPlayer(t, r, pid, now).0) <==> PlayerStepSafe(t, r, pid, now)
  {
    if ReapPlayer(t, r, pid, now).1 {
      if IsLive(t, r) {
        assert IsMember(t, t.heap[r].id, pid);
        DropKeepsInv(t, t.heap[r].id, pid);
      } else {
        DeadPlayerStepBreaksInv(t, r, pid, now);
      }
    }
  }

  lemma DeadPlayerStepBreaksInv(t: Table, r: Ref, pid: PlayerId, now: Time)
    requires Inv(t) && r in t.heap && !IsLive(t, r) && ReapPlayer(t, r, pid, now).1
    ensures !Inv(ReapPlayer(t, r, pid, now).0)
  {
    var u := ReapPlayer(t, r, pid, now).0;
    assert u == Drop(t, r, pid);
    hide ReapPlayer, IsStale, WithinLimits;
    if pid in t.index {
      var id := t.index[pid];
      assert Indexed(t, id, pid) && IsMember(t, id, pid);
      assert t.sessions[id] != r;
      assert u.heap[t.sessions[id]] == t.heap[t.sessions[id]];
      assert IsMember(u, id, pid) && !Indexed(u, id, pid);
    } else {
      assert u.index == t.index;
    }
  }

  lemma SessionStepKeepsInvIff(t: Table, r: Ref, id: SessionId, now: Time)
    requires Inv(t) && r in t.heap
    ensures Inv(ReapSession(t, r, id, now).0) <==> SessionStepSafe(t, r, id, now)
  {
    if ReapSession(t, r, id, now).1 {
      if id !in t.sessions {
        assert ReapSession(t, r, id, now).0.sessions == t.sessions;
        hide IndexAgrees, WithinLimits;
      } else if |t.heap[t.sessions[id]].players| == 0 {
        RemovingEmptyKeepsInv(t, r, id, now);
        hide Inv;
      } else {
        RemovingFullBreaksIndex(t, r, id, now);
        hide IndexAgrees, GaugesExact, WithinLimits;
      }
    }
  }

  lemma RemovingEmptyKeepsInv(t: Table, r: Ref, id: SessionId, now: Time)
    requires Inv(t) && r in t.heap && ReapSession(t, r, id, now).1
    requires id in t.sessions && |t.heap[t.sessions[id]].players| == 0
    ensures Inv(ReapSession(t, r, id, now).0)
  {
    var u := ReapSession(t, r, id, now).0;
    RemoveKeys(t.sessions, {id});
    forall id', p
      ensures Indexed(u, id', p) <==> IsMember(u, id', p)
    {
      assert Indexed(t, id', p) <==> IsMember(t, id', p);
    }
  }

  lemma RemovingFullBreaksIndex(t: Table, r: Ref, id: SessionId, now: Time)
    requires Inv(t) && r in t.heap && ReapSession(t, r, id, now).1
    requires id in t.sessions && |t.heap[t.sessions[id]].players| > 0
    ensures !IndexAgrees(ReapSession(t, r, id, now).0)
  {
    var u, players := ReapSession(t, r, id, now).0, t.heap[t.sessions[id]].players;
    hide GaugesExact, WithinLimits;
    assert players.Keys != {};
    var p :| p in players.Keys;
    assert IsMember(t, id, p) && Indexed(u, id, p) && !IsMember(u, id, p);
  }

  ghost predicate StepSafe(t: Table, e: Event)
    requires Linked(t)
  {
    match e
    case ReapPlayerEv(r, pid, now) => PlayerStepSafe(t, r, pid, now)
    case ReapSessionEv(r, id, now) => SessionStepSafe(t, r, id, now)
    case _ => true
  }

  lemma StepKeepsInvIff(t: Table, e: Event)
    requires Inv(t)
    ensures Inv(Step(t, e)) <==> StepSafe(t, e)
  {
    hide Create, Delete, Join, Leave, Deliver, ReapPlayer, ReapSession, IsStale, IsExpired, Inv;
    match e
    case CreateEv(id, maxPlayers, now) => CreateKeepsInv(t, id, maxPlayers, now);
    case DeleteEv(id) => DeleteKeepsInv(t, id);
    case JoinEv(id, pid, login, _) => JoinKeepsInv(t, id, pid, login);
    case LeaveEv(id, pid) => LeaveKeepsInv(t, id, pid);
    case PacketEv(r, pid, from, now) =>
      if r in t.heap { DeliverKeepsInv(t, r, pid, from, now); }
    case ReapPlayerEv(r, pid, now) =>
      if r in t.heap { PlayerStepKeepsInvIff(t, r, pid, now); }
    case ReapSessionEv(r, id, now) =>
      if r in t.heap { SessionStepKeepsInvIff(t, r, id, now); }
  }

  // ---------------------------------------------------------------- who is where

  /** Where a player is after a join that ended with `result`: a refused migration has already left the old session. */
  ghost predicate InAfterJoin(t: Table, target: SessionId, result: JoinResult, id: SessionId, pid: PlayerId)
    requires Linked(t)
  {
    match result
    case Joined => id == target
    case Rejoined => IsMember(t, id, pid)
    case NoSuchSession => IsMember(t, id, pid)
    case _ => false
  }

  /** Who is to be a member of which session after an event, told from who was before it. */
  ghost predicate MemberAfter(t: Table, e: Event, id: SessionId, p: PlayerId)
    requires Linked(t)
  {
    match e
    case CreateEv(_, _, _) => IsMember(t, id, p)
    case DeleteEv(gone) => IsMember(t, id, p) && id != gone
    case JoinEv(target, pid, login, _) =>
      if p == pid then InAfterJoin(t, target, Join(t, target, pid, login).1, id, p) else IsMember(t, id, p)
    case LeaveEv(left, pid) => IsMember(t, id, p) && !(id == left && p == pid)
    case PacketEv(_, _, _, _) => IsMember(t, id, p)
    case ReapPlayerEv(r, pid, now) =>
      IsMember(t, id, p) && !(t.sessions[id] == r && p == pid && IsStale(t.heap[r], t.heap[r].players[pid], now))
    case ReapSessionEv(_, _, _) => IsMember(t, id, p)
  }

  ghost predicate LiveAfter(t: Table, e: Event, id: SessionId) {
    match e
    case CreateEv(created, _, _) => id in t.sessions || (id == created && |t.sessions| < 15000)
    case DeleteEv(gone) => id in t.sessions && id != gone
    case ReapSessionEv(r, gone, now) => id in t.sessions && !(id == gone && r in t.heap && IsExpired(t.heap[r], now))
    case _ => id in t.sessions
  }

  lemma DetachMoves(t: Table, pid: PlayerId, id: SessionId, p: PlayerId)
    requires Linked(t) && IndexAgrees(t)
    ensures IsMember(Detach(t, pid), id, p) <==> IsMember(t, id, p) && p != pid
  {
    assert Indexed(t, id, p) <==> IsMember(t, id, p);
  }

  lemma AttachMoves(t: Table, target: SessionId, pid: PlayerId, login: string, id: SessionId, p: PlayerId)
    requires Linked(t) && target in t.sessions
    ensures var (u, result) := Attach(t, target, pid, login);
      && result in {Joined, ServerFull, SessionFull}
      && (IsMember(u, id, p) <==> IsMember(t, id, p) || (result == Joined && id == target && p == pid))
  {
  }

  lemma JoinMoves(t: Table, target: SessionId, pid: PlayerId, login: string, now: Time, id: SessionId, p: PlayerId)
    requires Linked(t) && IndexAgrees(t)
    ensures IsMember(Join(t, target, pid, login).0, id, p) <==> MemberAfter(t, JoinEv(target, pid, login, now), id, p)
    ensures Join(t, target, pid, login).0.sessions == t.sessions
  {
    if target in t.sessions && !Indexed(t, target, pid) {
      DetachMoves(t, pid, id, p);
      AttachMoves(Detach(t, pid), target, pid, login, id, p);
      hide IsMember, IndexAgrees, Linked;
    } else {
      hide IndexAgrees;
    }
  }

  lemma ReapPlayerMoves(t: Table, r: Ref, pid: PlayerId, now: Time, id: SessionId, p: PlayerId)
    requires Linked(t) && r in t.heap
    ensures IsMember(ReapPlayer(t, r, pid, now).0, id, p) <==> MemberAfter(t, ReapPlayerEv(r, pid, now), id, p)
    ensures ReapPlayer(t, r, pid, now).0.sessions == t.sessions
  {
  }

  lemma ReapSessionMoves(t: Table, r: Ref, gone: SessionId, now: Time, id: SessionId, p: PlayerId)
    requires Linked(t) && r in t.heap && SessionStepSafe(t, r, gone, now)
    ensures IsMember(ReapSession(t, r, gone, now).0, id, p) <==> IsMember(t, id, p)
    ensures id in ReapSession(t, r, gone, now).0.sessions <==> LiveAfter(t, ReapSessionEv(r, gone, now), id)
  {
  }

  lemma CreateMoves(t: Table, created: SessionId, maxPlayers: int, now: Time, id: SessionId, p: PlayerId)
    requires Linked(t)
    ensures var u := Create(t, created, maxPlayers, now).0;
      && (IsMember(u, id, p) <==> IsMember(t, id, p))
      && (id in u.sessions <==> LiveAfter(t, CreateEv(created, maxPlayers, now), id))
  {
  }

  lemma LeaveMoves(t: Table, left: SessionId, pid: PlayerId, id: SessionId, p: PlayerId)
    requires Linked(t)
    ensures IsMember(Leave(t, left, pid).0, id, p) <==> MemberAfter(t, LeaveEv(left, pid), id, p)
    ensures Leave(t, left, pid).0.sessions == t.sessions
  {
  }

  lemma PacketMoves(t: Table, r: Ref, pid: PlayerId, from: Endpoint, now: Time, id: SessionId, p: PlayerId)
    requires Linked(t) && r in t.heap
    ensures IsMember(Deliver(t, r, pid, from, now).0, id, p) <==> IsMember(t, id, p)
    ensures Deliver(t, r, pid, from, now).0.sessions == t.sessions
  {
    hide Receive;
  }

  /** A step moves exactly the players it should: membership afterwards is told from membership before. */
  lemma StepMoves(t: Table, e: Event, id: SessionId, p: PlayerId)
    requires Inv(t) && StepSafe(t, e)
    ensures IsMember(Step(t, e), id, p) <==> MemberAfter(t, e, id, p)
    ensures id in Step(t, e).sessions <==> LiveAfter(t, e, id)
  {
    hide Create, Join, Leave, Deliver, ReapPlayer, ReapSession, IndexAgrees, GaugesExact, WithinLimits, IsStale, IsExpired;
    match e
    case CreateEv(created, maxPlayers, now) => CreateMoves(t, created, maxPlayers, now, id, p);
    case JoinEv(target, pid, login, now) => JoinMoves(t, target, pid, login, now, id, p);
    case LeaveEv(left, pid) => LeaveMoves(t, left, pid, id, p);
    case PacketEv(r, pid, from, now) => if r in t.heap { PacketMoves(t, r, pid, from, now, id, p); }
    case ReapPlayerEv(r, pid, now) => if r in t.heap { ReapPlayerMoves(t, r, pid, now, id, p); }
    case ReapSessionEv(r, gone, now) => if r in t.heap { ReapSessionMoves(t, r, gone, now, id, p); }
    case _ =>
  }

  // ---------------------------------------------------------------- runs

  ghost predicate InvThroughout(t: Table, es: seq<Event>)
    requires Linked(t)
  {
    forall i :: 0 <= i <= |es| ==> Inv(Run(t, es[..i]))
  }

  ghost predicate SafeThroughout(t: Table, es: seq<Event>)
    requires Linked(t)
  {
    forall i :: 0 <= i < |es| ==> StepSafe(Run(t, es[..i]), es[i])
  }

  lemma RunStep(t: Table, es: seq<Event>, i: nat)
    requires Linked(t) && i < |es|
    ensures Run(t, es[..i + 1]) == Step(Run(t, es[..i]), es[i])
  {
    assert es[..i + 1][..i] == es[..i];
  }

  /** Over any run, index, gauges and limits are right in every state exactly when every reaper step was safe. */
  lemma RunKeepsInvIff(t: Table, es: seq<Event>)
    requires Inv(t)
    ensures InvThroughout(t, es) <==> SafeThroughout(t, es)
  {
    if InvThroughout(t, es) {
      forall i | 0 <= i < |es|
        ensures StepSafe(Run(t, es[..i]), es[i])
      {
        RunStep(t, es, i);
        assert Inv(Run(t, es[..i])) && Inv(Run(t, es[..i + 1]));
        StepKeepsInvIff(Run(t, es[..i]), es[i]);
      }
    }
    if SafeThroughout(t, es) {
      forall i | 0 <= i <= |es|
        ensures Inv(Run(t, es[..i]))
      {
        SafePrefixKeepsInv(t, es, i);
      }
    }
  }

  lemma RunOfNone(t: Table, es: seq<Event>)
    requires Linked(t)
    ensures Run(t, es[..0]) == t
  {
  }

  lemma {:induction false} SafePrefixKeepsInv(t: Table, es: seq<Event>, i: nat)
    requires Inv(t) && SafeThroughout(t, es) && i <= |es|
    ensures Inv(Run(t, es[..i]))
  {
    hide Step, StepSafe, Run, IndexAgrees, GaugesExact, WithinLimits;
    if i == 0 {
      RunOfNone(t, es);
    } else {
      SafePrefixKeepsInv(t, es, i - 1);
      RunStep(t, es, i - 1);
      assert StepSafe(Run(t, es[..i - 1]), es[i - 1]);
      StepKeepsInvIff(Run(t, es[..i - 1]), es[i - 1]);
    }
  }

  lemma EmptyTableIsFine()
    ensures Inv(EMPTY)
  {
  }

  /** From the empty table on, index, gauges and limits are right in every reachable state exactly when every reaper step was safe. */
  lemma ReachableInvIff(es: seq<Event>)
    ensures InvThroughout(EMPTY, es) <==> SafeThroughout(EMPTY, es)
  {
    EmptyTableIsFine();
    RunKeepsInvIff(EMPTY, es);
  }

  lemma CreateThenDelete(id: SessionId, maxPlayers: int, now: Time)
    ensures var t := Delete(Create(EMPTY, id, maxPlayers, now).0, id).0;
      t.activeSessions == 0 && 0 in t.heap && t.heap[0] == Session(id, maxPlayers, now, map[])
  {
  }

  lemma RunAppend(t: Table, es: seq<Event>, e: Event)
    requires Linked(t)
    ensures Run(t, es + [e]) == Step(Run(t, es), e)
  {
    assert (es + [e])[..|es|] == es;
    hide Step;
  }

  lemma RunOfTwo(t: Table, a: Event, b: Event)
    requires Linked(t)
    ensures Run(t, [a, b]) == Step(Step(t, a), b)
  {
    assert Run(t, []) == t;
    hide Step, Run;
    RunAppend(t, [], a);
    RunAppend(t, [a], b);
    assert [] + [a] == [a] && [a] + [b] == [a, b];
  }

  lemma RunOfThree(t: Table, a: Event, b: Event, c: Event)
    requires Linked(t)
    ensures Run(t, [a, b, c]) == Step(Step(Step(t, a), b), c)
  {
    hide Step, Run;
    RunOfTwo(t, a, b);
    RunAppend(t, [a, b], c);
    assert [a, b] + [c] == [a, b, c];
  }

  /** The proviso is needed: deleting a listed empty session between the reaper's phases makes the session gauge negative. */
  lemma DeletedCandidateBreaksGauge(id: SessionId, maxPlayers: int, created: Time, now: Time)
    requires now - created > 120_000_000_000
    ensures Run(EMPTY, [CreateEv(id, maxPlayers, created), DeleteEv(id), ReapSessionEv(0, id, now)]).activeSessions == -1
  {
    hide Run;
    RunOfThree(EMPTY, CreateEv(id, maxPlayers, created), DeleteEv(id), ReapSessionEv(0, id, now));
    CreateThenDelete(id, maxPlayers, created);
    hide Create, Delete;
  }
}
