/**
 The life of one registration of a player inside a run of the table, and what the table's record
 of that player says about it.
 */
module Registrations {
  import opened Bytes
  import opened PlayerTransport
  import opened SessionTable
  import opened SessionRuns

  datatype Registration = Absent | Present(login: string, history: History)

  /** What an event means to player `pid` while it is registered in session object `r`. */
  ghost function Addressed(t: Table, e: Event, r: Ref, pid: PlayerId): History {
    match e
    case PacketEv(r', p, from, now) => if r' == r && p == pid then [Packet(from, now)] else []
    case JoinEv(id, p, _, _) =>
      if p == pid && Indexed(t, id, p) && id in t.sessions && t.sessions[id] == r then [Reset] else []
    case _ => []
  }

  ghost predicate IsIn(t: Table, r: Ref, pid: PlayerId) {
    r in t.heap && pid in t.heap[r].players
  }

  /** The registration as an observer of the run sees it: from when it appears, the events addressed to it. */
  ghost function Observed(es: seq<Event>, r: Ref, pid: PlayerId): Registration {
    if es == [] then Absent
    else
      var before, e := Run(EMPTY, es[..|es| - 1]), es[|es| - 1];
      var earlier := Observed(es[..|es| - 1], r, pid);
      if !IsIn(Step(before, e), r, pid) then Absent
      else if earlier.Absent? then Present(if e.JoinEv? then e.login else "", [])
      else Present(earlier.login, earlier.history + Addressed(before, e, r, pid))
  }

  /** A step changes a record only as the events addressed to it say, and new records are fresh ones. */
  lemma StepOnRecord(t: Table, e: Event, r: Ref, pid: PlayerId)
    requires Linked(t) && IsIn(Step(t, e), r, pid)
    ensures !IsIn(t, r, pid) ==> e.JoinEv? && Step(t, e).heap[r].players[pid] == NewPlayer(e.login)
    ensures IsIn(t, r, pid) ==>
            var h := Addressed(t, e, r, pid);
            Step(t, e).heap[r].players[pid] ==
              if h == [] then t.heap[r].players[pid] else Apply(t.heap[r].players[pid], h[0])
  {
    match e
    case JoinEv(id, p, login, _) =>
      if id in t.sessions && !Indexed(t, id, p) {
        JoinOnRecord(t, id, p, login, r, pid);
      }
      hide Attach, Detach;
    case PacketEv(_, _, _, _) => PacketOnRecord(t, e, r, pid);
    case _ => OtherOnRecord(t, e, r, pid);
  }

  lemma OtherOnRecord(t: Table, e: Event, r: Ref, pid: PlayerId)
    requires Linked(t) && !e.PacketEv? && !e.JoinEv? && IsIn(Step(t, e), r, pid)
    ensures r in t.heap && pid in t.heap[r].players && Step(t, e).heap[r].players[pid] == t.heap[r].players[pid]
  {
    hide Join, Deliver, IsStale, IsExpired;
    match e
    case CreateEv(_, _, _) => hide Delete, Leave, ReapPlayer, ReapSession;
    case DeleteEv(_) => hide Create, Leave, ReapPlayer, ReapSession;
    case LeaveEv(_, _) => hide Create, Delete, ReapPlayer, ReapSession;
    case ReapPlayerEv(_, _, _) => hide Create, Delete, Leave, ReapSession;
    case ReapSessionEv(_, _, _) => hide Create, Delete, Leave, ReapPlayer;
  }

  lemma PacketOnRecord(t: Table, e: Event, r: Ref, pid: PlayerId)
    requires Linked(t) && e.PacketEv? && IsIn(Step(t, e), r, pid)
    ensures IsIn(t, r, pid)
    ensures
      var h := Addressed(t, e, r, pid);
      r in t.heap && pid in t.heap[r].players && Step(t, e).heap[r].players[pid] ==
        if h == [] then t.heap[r].players[pid] else Apply(t.heap[r].players[pid], h[0])
  {
    hide Receive;
  }

  lemma DetachOnRecord(t: Table, p: PlayerId, r: Ref, pid: PlayerId)
    requires Linked(t)
    ensures IsIn(Detach(t, p), r, pid) ==> IsIn(t, r, pid) && Detach(t, p).heap[r].players[pid] == t.heap[r].players[pid]
    ensures IsIn(t, r, pid) && !IsIn(Detach(t, p), r, pid) ==>
            p == pid && p in t.index && t.index[p] in t.sessions && t.sessions[t.index[p]] == r
  {
  }

  lemma AttachOnRecord(t: Table, id: SessionId, p: PlayerId, login: string, r: Ref, pid: PlayerId)
    requires Linked(t) && id in t.sessions
    requires IsIn(Attach(t, id, p, login).0, r, pid)
    ensures IsIn(t, r, pid) ==> Attach(t, id, p, login).0.heap[r].players[pid] == t.heap[r].players[pid]
    ensures !IsIn(t, r, pid) ==>
            p == pid && t.sessions[id] == r && Attach(t, id, p, login).0.heap[r].players[pid] == NewPlayer(login)
  {
  }

  lemma JoinOnRecord(t: Table, id: SessionId, p: PlayerId, login: string, r: Ref, pid: PlayerId)
    requires Linked(t) && id in t.sessions && !Indexed(t, id, p)
    requires IsIn(Join(t, id, p, login).0, r, pid)
    ensures IsIn(t, r, pid) ==> Join(t, id, p, login).0.heap[r].players[pid] == t.heap[r].players[pid]
    ensures !IsIn(t, r, pid) ==> p == pid && Join(t, id, p, login).0.heap[r].players[pid] == NewPlayer(login)
  {
    var v := Detach(t, p);
    assert Join(t, id, p, login) == Attach(v, id, p, login);
    if p in t.index && t.index[p] in t.sessions {
      assert t.heap[t.sessions[t.index[p]]].id == t.index[p] && t.heap[t.sessions[id]].id == id;
    }
    hide Join, Attach, Detach;
    DetachOnRecord(t, p, r, pid);
    AttachOnRecord(v, id, p, login, r, pid);
  }

  /** Every record in the table is the one its registration's history leads to. */
  lemma {:induction false} RecordsMatchHistories(es: seq<Event>, r: Ref, pid: PlayerId)
    ensures Observed(es, r, pid).Present? <==> IsIn(Run(EMPTY, es), r, pid)
    ensures Observed(es, r, pid).Present? ==>
            Run(EMPTY, es).heap[r].players[pid] == After(Observed(es, r, pid).login, Observed(es, r, pid).history)
    decreases |es|
  {
    if es != [] {
      var n := |es| - 1;
      var prefix, e := es[..n], es[n];
      RecordsMatchHistories(prefix, r, pid);
      var t := Run(EMPTY, prefix);
      hide Step, Linked, Addressed;
      if IsIn(Step(t, e), r, pid) {
        StepOnRecord(t, e, r, pid);
        var h := Addressed(t, e, r, pid);
        if IsIn(t, r, pid) {
          var reg := Observed(prefix, r, pid);
          AfterAppended(reg.login, reg.history, h);
          assert |h| <= 1 by { AddressedOnce(t, e, r, pid); }
        }
      }
    }
  }

  lemma AddressedOnce(t: Table, e: Event, r: Ref, pid: PlayerId)
    ensures |Addressed(t, e, r, pid)| <= 1
  {
  }

  lemma AfterAppended(login: string, h: History, more: History)
    ensures more == [] ==> After(login, h + more) == After(login, h)
    ensures |more| == 1 ==> After(login, h + more) == Apply(After(login, h), more[0])
  {
    if more == [] {
      assert h + more == h;
    } else if |more| == 1 {
      assert (h + more)[..|h|] == h;
    }
  }

  /** In every run, packets for a player go to the source of its latest accepted packet since it joined or rejoined. */
  lemma TargetsFollowHistory(es: seq<Event>, r: Ref, pid: PlayerId)
    requires IsIn(Run(EMPTY, es), r, pid)
    ensures Observed(es, r, pid).Present?
    ensures var Present(login, h) := Observed(es, r, pid);
      var target := Target(Run(EMPTY, es).heap[r].players[pid]);
      && (target.None? <==> NoneAccepted(login, h))
      && forall i: nat :: IsLatest(login, h, i) ==> target == Some(h[i].from)
  {
    RecordsMatchHistories(es, r, pid);
    var reg := Observed(es, r, pid);
    TargetIsLatestSource(reg.login, reg.history);
  }

  /** The registration has been silent for too long: since its latest accepted packet or, without one, since its session was created. */
  ghost predicate Silent(login: string, h: History, createdAt: Time, now: Time) {
    || (NoneAccepted(login, h) && now - createdAt > 90_000_000_000)
    || exists i: nat :: IsLatest(login, h, i) && now - h[i].now > 90_000_000_000
  }

  /** In every run, the reaper's second look removes a player exactly when it is registered there and silent for more than 90 s. */
  lemma ReapedIffSilent(es: seq<Event>, r: Ref, pid: PlayerId, now: Time)
    requires r in Run(EMPTY, es).heap
    ensures ReapPlayer(Run(EMPTY, es), r, pid, now).1 <==>
            && Observed(es, r, pid).Present?
            && Silent(Observed(es, r, pid).login, Observed(es, r, pid).history, Run(EMPTY, es).heap[r].createdAt, now)
  {
    RecordsMatchHistories(es, r, pid);
    var reg := Observed(es, r, pid);
    if reg.Present? {
      SeenIffSent(reg.login, reg.history);
    }
    hide Run, Observed, Linked, NoneAccepted, IsLatest;
  }

  /** When a record was last seen: at its latest accepted packet, or never. */
  lemma SeenIffSent(login: string, h: History)
    ensures After(login, h).lastSeen.None? <==> NoneAccepted(login, h)
    ensures After(login, h).lastSeen.None? ==> forall i: nat :: !IsLatest(login, h, i)
    ensures After(login, h).lastSeen.Some? ==>
              exists i: nat :: IsLatest(login, h, i)
    ensures forall i: nat :: IsLatest(login, h, i) ==> After(login, h).lastSeen == Some(h[i].now)
  {
    TargetIsLatestSource(login, h);
    var latest := LatestOrNone(login, h);
    if latest.None? {
      NoneExcludesLatest(login, h);
    }
  }

  // ---------------------------------------------------------------- sessions

  /** Event `i` of the run created session object `r`: its id was free and there was room for one more session. */
  ghost predicate CreatedAt(es: seq<Event>, i: nat, r: Ref) {
    && i < |es| && es[i].CreateEv?
    && var t := Run(EMPTY, es[..i]);
    es[i].id !in t.sessions && |t.sessions| < 15000 && r == t.next
  }

  /** An object is what its creation says. */
  ghost predicate HasTerms(t: Table, r: Ref, e: Event)
    requires e.CreateEv?
  {
    r in t.heap && t.heap[r].id == e.id && t.heap[r].maxPlayers == e.maxPlayers && t.heap[r].createdAt == e.now
  }

  /** `u` holds object `r` with the id, capacity and time it has in `t`. */
  ghost predicate SameTerms(t: Table, u: Table, r: Ref)
    requires r in t.heap
  {
    && r in u.heap && u.heap[r].id == t.heap[r].id
    && u.heap[r].maxPlayers == t.heap[r].maxPlayers && u.heap[r].createdAt == t.heap[r].createdAt
  }

  lemma JoinKeepsTerms(t: Table, id: SessionId, pid: PlayerId, login: string, r: Ref)
    requires Linked(t) && r in t.heap
    ensures SameTerms(t, Join(t, id, pid, login).0, r)
  {
    var v := Detach(t, pid);
    assert SameTerms(t, v, r);
    if id in t.sessions && !Indexed(t, id, pid) {
      AttachKeepsTerms(v, id, pid, login, r);
      hide Attach, Detach, Linked;
    } else {
      hide Attach, Detach;
    }
  }

  lemma AttachKeepsTerms(t: Table, id: SessionId, pid: PlayerId, login: string, r: Ref)
    requires Linked(t) && id in t.sessions && r in t.heap
    ensures SameTerms(t, Attach(t, id, pid, login).0, r)
  {
  }

  lemma StepKeepsTerms(t: Table, e: Event, r: Ref)
    requires Linked(t) && r in t.heap
    ensures SameTerms(t, Step(t, e), r)
  {
    match e
    case JoinEv(id, pid, login, _) =>
      hide Join;
      JoinKeepsTerms(t, id, pid, login, r);
    case _ =>
      hide Join, Receive, IsStale, IsExpired;
  }

  lemma CreationGivesTerms(t: Table, e: Event)
    requires Linked(t) && e.CreateEv? && e.id !in t.sessions && |t.sessions| < 15000
    ensures HasTerms(Step(t, e), t.next, e)
  {
  }

  lemma NewObjectsAreCreated(t: Table, e: Event, r: Ref)
    requires Linked(t) && r !in t.heap && r in Step(t, e).heap
    ensures e.CreateEv? && e.id !in t.sessions && |t.sessions| < 15000 && r == t.next
  {
    hide Receive, IsStale, IsExpired;
    match e
    case JoinEv(id, pid, login, _) =>
      hide Join;
      JoinAddsNoObject(t, id, pid, login, r);
    case _ => hide Join;
  }

  lemma JoinAddsNoObject(t: Table, id: SessionId, pid: PlayerId, login: string, r: Ref)
    requires Linked(t)
    ensures r in Join(t, id, pid, login).0.heap ==> r in t.heap
  {
    var v := Detach(t, pid);
    assert v.heap.Keys == t.heap.Keys;
    hide Detach;
  }

  /** In every run, a session object keeps the id, the capacity and the time it was created with. */
  lemma {:induction false} TermsStay(es: seq<Event>, i: nat, r: Ref)
    requires CreatedAt(es, i, r)
    ensures HasTerms(Run(EMPTY, es), r, es[i])
    decreases |es|
  {
    var n := |es| - 1;
    var t, e := Run(EMPTY, es[..n]), es[i];
    assert Run(EMPTY, es) == Step(t, es[n]);
    if i == n {
      CreationGivesTerms(t, e);
      hide Run, Step;
    } else {
      StillCreated(es, i, r);
      hide Run, Step, CreatedAt;
      TermsStay(es[..n], i, r);
      StepKeepsTerms(t, es[n], r);
    }
  }

  lemma StillCreated(es: seq<Event>, i: nat, r: Ref)
    requires es != [] && i < |es| - 1
    ensures CreatedAt(es, i, r) <==> CreatedAt(es[..|es| - 1], i, r)
  {
    assert es[..|es| - 1][..i] == es[..i];
    hide Run;
  }

  /** In every run, every session object was created by one of its events. */
  lemma {:induction false} WasCreated(es: seq<Event>, r: Ref) returns (i: nat)
    requires r in Run(EMPTY, es).heap
    ensures CreatedAt(es, i, r)
    decreases |es|
  {
    var n := |es| - 1;
    var t := Run(EMPTY, es[..n]);
    if r in t.heap {
      i := WasCreated(es[..n], r);
      StillCreated(es, i, r);
      hide Run, Step, Linked, CreatedAt;
    } else {
      NewObjectsAreCreated(t, es[n], r);
      i := n;
      hide Step, Linked;
    }
  }

  /** Nobody is registered in object `r` at the end of the run. */
  ghost predicate NobodyIn(es: seq<Event>, r: Ref) {
    forall pid :: Observed(es, r, pid).Absent?
  }

  lemma NobodyIff(es: seq<Event>, r: Ref)
    requires r in Run(EMPTY, es).heap
    ensures NobodyIn(es, r) <==> |Run(EMPTY, es).heap[r].players| == 0
  {
    var players := Run(EMPTY, es).heap[r].players;
    forall pid
      ensures Observed(es, r, pid).Absent? <==> pid !in players
    {
      RecordsMatchHistories(es, r, pid);
    }
    hide Run, Observed;
    NobodyThere(players);
  }

  /** In every run, the reaper's second look at a session finds it due exactly when nobody is registered there and it is more than two minutes old. */
  lemma SessionReapedIff(es: seq<Event>, i: nat, r: Ref, id: SessionId, now: Time)
    requires CreatedAt(es, i, r)
    ensures r in Run(EMPTY, es).heap
    ensures ReapSession(Run(EMPTY, es), r, id, now).1 <==> NobodyIn(es, r) && now - es[i].now > 120_000_000_000
  {
    TermsStay(es, i, r);
    NobodyIff(es, r);
    DueIff(Run(EMPTY, es), r, id, now);
    hide Run, NobodyIn, ReapSession;
  }

  lemma DueIff(t: Table, r: Ref, id: SessionId, now: Time)
    requires r in t.heap
    ensures ReapSession(t, r, id, now).1 <==> |t.heap[r].players| == 0 && now - t.heap[r].createdAt > 120_000_000_000
  {
  }

  lemma NobodyThere(players: map<PlayerId, PlayerInfo>)
    ensures |players| == 0 <==> forall pid :: pid !in players
  {
    if forall pid :: pid !in players {
      assert players.Keys == {};
    }
  }
}
