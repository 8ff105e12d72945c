/**
 One cycle of the reaper, interleaved with everything else. Phase 1 lists candidates with the
 session objects it saw; phase 2 visits them one critical section at a time, while joins, leaves,
 creations and packets go on around it.
 */
module ReaperCycle {
  import opened PlayerTransport
  import opened SessionTable
  import opened SessionRuns

  datatype Candidate = Candidate(id: SessionId, r: Ref, stale: seq<PlayerId>)

  datatype Visit = VisitPlayer(id: SessionId, r: Ref, pid: PlayerId) | VisitSession(id: SessionId, r: Ref)

  function PlayerVisits(c: Candidate): seq<Visit> {
    seq(|c.stale|, i requires 0 <= i < |c.stale| => VisitPlayer(c.id, c.r, c.stale[i]))
  }

  function Visits(cs: seq<Candidate>): seq<Visit> {
    if cs == [] then [] else PlayerVisits(cs[0]) + [VisitSession(cs[0].id, cs[0].r)] + Visits(cs[1..])
  }

  /** Phase 1 saw each candidate in the table, once. */
  ghost predicate ListedIn(t: Table, cs: seq<Candidate>) {
    && (forall i :: 0 <= i < |cs| ==> cs[i].id in t.sessions && t.sessions[cs[i].id] == cs[i].r)
    && (forall i, j :: 0 <= i < j < |cs| ==> cs[i].id != cs[j].id)
  }

  /** Every session still to be visited is the live one of its id. */
  ghost predicate AllLive(t: Table, todo: seq<Visit>) {
    forall i :: 0 <= i < |todo| ==> todo[i].id in t.sessions && t.sessions[todo[i].id] == todo[i].r
  }

  /** The visit to a session is the last one under its id. */
  ghost predicate SessionsLast(todo: seq<Visit>) {
    forall i, j :: 0 <= i < j < |todo| && todo[i].VisitSession? ==> todo[j].id != todo[i].id
  }

  lemma {:induction false} VisitedIdsAreListed(cs: seq<Candidate>, j: nat) returns (i: nat)
    requires j < |Visits(cs)|
    ensures i < |cs| && Visits(cs)[j].id == cs[i].id && Visits(cs)[j].r == cs[i].r
    decreases |cs|
  {
    var n := |cs[0].stale| + 1;
    if j < n {
      i := 0;
    } else {
      i := VisitedIdsAreListed(cs[1..], j - n);
      i := i + 1;
    }
  }

  lemma {:induction false} ListedVisits(t: Table, cs: seq<Candidate>)
    requires ListedIn(t, cs)
    ensures AllLive(t, Visits(cs)) && SessionsLast(Visits(cs))
    decreases |cs|
  {
    var todo := Visits(cs);
    forall j | 0 <= j < |todo|
      ensures todo[j].id in t.sessions && t.sessions[todo[j].id] == todo[j].r
    {
      var i := VisitedIdsAreListed(cs, j);
    }
    if cs != [] {
      var n := |cs[0].stale| + 1;
      ListedVisits(t, cs[1..]);
      forall i, j | 0 <= i < j < |todo| && todo[i].VisitSession?
        ensures todo[j].id != todo[i].id
      {
        assert i >= n - 1;
        var k := VisitedIdsAreListed(cs[1..], j - n);
        assert todo[j] == Visits(cs[1..])[j - n];
        if i >= n {
          assert todo[i] == Visits(cs[1..])[i - n];
        }
      }
    }
  }

  // ---------------------------------------------------------------- interleaving

  /** Either someone else's critical section, or the reaper's next one. */
  datatype CycleStep = Other(e: Event) | Reap(now: Time)

  function VisitEvent(v: Visit, now: Time): Event {
    match v
    case VisitPlayer(_, r, pid) => ReapPlayerEv(r, pid, now)
    case VisitSession(id, r) => ReapSessionEv(r, id, now)
  }

  function Advance(t: Table, todo: seq<Visit>, step: CycleStep): (next: (Table, seq<Visit>))
    requires Linked(t)
    ensures Linked(next.0)
  {
    match step
    case Other(e) => (Step(t, e), todo)
    case Reap(now) => if todo == [] then (t, todo) else (Step(t, VisitEvent(todo[0], now)), todo[1..])
  }

  function Cycle(t: Table, todo: seq<Visit>, steps: seq<CycleStep>): (end: (Table, seq<Visit>))
    requires Linked(t)
    ensures Linked(end.0)
    decreases |steps|
  {
    if steps == [] then (t, todo)
    else
      var (u, rest) := Advance(t, todo, steps[0]);
      Cycle(u, rest, steps[1..])
  }

  lemma {:induction false} CycleAppend(t: Table, todo: seq<Visit>, steps: seq<CycleStep>, last: CycleStep)
    requires Linked(t)
    ensures Cycle(t, todo, steps + [last]) == Advance(Cycle(t, todo, steps).0, Cycle(t, todo, steps).1, last)
    decreases |steps|
  {
    hide Linked, Advance;
    if steps == [] {
      assert steps + [last] == [last];
      var (u, rest) := Advance(t, todo, last);
      assert Cycle(u, rest, []) == (u, rest);
    } else {
      var (u, rest) := Advance(t, todo, steps[0]);
      assert (steps + [last])[1..] == steps[1..] + [last];
      CycleAppend(u, rest, steps[1..], last);
    }
  }

  function Reaps(stamps: seq<Time>): seq<CycleStep> {
    seq(|stamps|, i requires 0 <= i < |stamps| => Reap(stamps[i]))
  }

  /** An uninterrupted reaper that made its visits at `stamps`, none before `start`, has got this far. */
  ghost predicate Reached(t0: Table, todo0: seq<Visit>, start: Time, stamps: seq<Time>, t: Table, todo: seq<Visit>)
    requires Linked(t0)
  {
    Cycle(t0, todo0, Reaps(stamps)) == (t, todo) && forall i :: 0 <= i < |stamps| ==> stamps[i] >= start
  }

  lemma ReachedNext(t0: Table, todo0: seq<Visit>, start: Time, stamps: seq<Time>, t: Table, todo: seq<Visit>, now: Time)
    requires Linked(t0) && Linked(t) && todo != [] && now >= start && Reached(t0, todo0, start, stamps, t, todo)
    ensures Reached(t0, todo0, start, stamps + [now], Step(t, VisitEvent(todo[0], now)), todo[1..])
  {
    hide Linked, Step;
    assert Reaps(stamps + [now]) == Reaps(stamps) + [Reap(now)];
    CycleAppend(t0, todo0, Reaps(stamps), Reap(now));
  }

  /** There is one reaper, and no session it has yet to visit is deleted under it. */
  ghost predicate Undisturbed(todo: seq<Visit>, e: Event) {
    && !e.ReapPlayerEv? && !e.ReapSessionEv?
    && (e.DeleteEv? ==> forall i :: 0 <= i < |todo| ==> todo[i].id != e.id)
  }

  ghost predicate AllUndisturbed(todo: seq<Visit>, steps: seq<CycleStep>) {
    forall i :: 0 <= i < |steps| && steps[i].Other? ==> Undisturbed(todo, steps[i].e)
  }

  lemma OtherKeepsLive(t: Table, e: Event, id: SessionId)
    requires Linked(t) && id in t.sessions
    requires !e.ReapPlayerEv? && !e.ReapSessionEv? && e != DeleteEv(id)
    ensures id in Step(t, e).sessions && Step(t, e).sessions[id] == t.sessions[id]
  {
    hide Linked, Receive, Join;
    match e
    case JoinEv(id', pid, login, _) => JoinKeepsSessions(t, id', pid, login);
    case _ =>
  }

  lemma JoinKeepsSessions(t: Table, id: SessionId, pid: PlayerId, login: string)
    requires Linked(t)
    ensures Join(t, id, pid, login).0.sessions == t.sessions
  {
  }

  lemma VisitIsSafe(t: Table, todo: seq<Visit>, now: Time)
    requires Inv(t) && todo != [] && AllLive(t, todo)
    ensures StepSafe(t, VisitEvent(todo[0], now))
  {
  }

  lemma VisitKeepsLive(t: Table, todo: seq<Visit>, now: Time)
    requires Linked(t) && todo != [] && AllLive(t, todo) && SessionsLast(todo)
    ensures AllLive(Step(t, VisitEvent(todo[0], now)), todo[1..])
    ensures SessionsLast(todo[1..])
  {
  }

  lemma AdvanceKeepsInv(t: Table, todo: seq<Visit>, step: CycleStep)
    requires Inv(t) && AllLive(t, todo) && SessionsLast(todo)
    requires step.Other? ==> Undisturbed(todo, step.e)
    ensures var (u, rest) := Advance(t, todo, step);
      && Inv(u) && AllLive(u, rest) && SessionsLast(rest)
      && forall i :: 0 <= i < |rest| ==> rest[i] in todo
  {
    hide Step;
    match step
    case Other(e) =>
      StepKeepsInvIff(t, e);
      forall i | 0 <= i < |todo|
        ensures todo[i].id in Step(t, e).sessions && Step(t, e).sessions[todo[i].id] == todo[i].r
      {
        OtherKeepsLive(t, e, todo[i].id);
      }
    case Reap(now) =>
      if todo != [] {
        VisitIsSafe(t, todo, now);
        StepKeepsInvIff(t, VisitEvent(todo[0], now));
        VisitKeepsLive(t, todo, now);
      }
  }

  /** Whatever is interleaved with the reaper's visits, the table is right after every step. */
  lemma {:induction false} CycleKeepsInv(t: Table, todo: seq<Visit>, steps: seq<CycleStep>)
    requires Inv(t) && AllLive(t, todo) && SessionsLast(todo) && AllUndisturbed(todo, steps)
    ensures var (u, rest) := Cycle(t, todo, steps);
      Inv(u) && AllLive(u, rest) && SessionsLast(rest)
    decreases |steps|
  {
    if steps != [] {
      hide Inv, AllLive, SessionsLast, Advance;
      AdvanceKeepsInv(t, todo, steps[0]);
      var (u, rest) := Advance(t, todo, steps[0]);
      assert AllUndisturbed(rest, steps[1..]);
      CycleKeepsInv(u, rest, steps[1..]);
    }
  }

  /** From the scan to the last visit: index, gauges and limits hold if no listed session is deleted meanwhile. */
  lemma ReaperKeepsTable(t: Table, cs: seq<Candidate>, steps: seq<CycleStep>)
    requires Inv(t) && ListedIn(t, cs) && AllUndisturbed(Visits(cs), steps)
    ensures Inv(Cycle(t, Visits(cs), steps).0)
  {
    ListedVisits(t, cs);
    CycleKeepsInv(t, Visits(cs), steps);
  }

  /** Silent for more than 90 s: since the player was last seen or, if never, since its session was created. */
  ghost predicate LongSilent(s: Session, p: PlayerInfo, now: Time) {
    now - (if p.lastSeen.Some? then p.lastSeen.value else s.createdAt) > 90_000_000_000
  }

  /** At any point of a cycle, the reaper's next step takes out only players silent for 90 s and only empty sessions two minutes old. */
  lemma ReaperTakesOnlyStale(t: Table, cs: seq<Candidate>, steps: seq<CycleStep>, now: Time)
    requires Inv(t) && ListedIn(t, cs) && AllUndisturbed(Visits(cs), steps)
    ensures var (u, todo) := Cycle(t, Visits(cs), steps);
      var v := Advance(u, todo, Reap(now)).0;
      && (forall id, pid :: IsMember(u, id, pid) && !IsMember(v, id, pid) ==>
            LongSilent(u.heap[u.sessions[id]], u.heap[u.sessions[id]].players[pid], now))
      && (forall id :: id in u.sessions && id !in v.sessions ==>
            |u.heap[u.sessions[id]].players| == 0 && now - u.heap[u.sessions[id]].createdAt > 120_000_000_000)
  {
    ListedVisits(t, cs);
    CycleKeepsInv(t, Visits(cs), steps);
    var (u, todo) := Cycle(t, Visits(cs), steps);
    if todo != [] {
      VisitTakesOnlyStale(u, todo[0], now);
    }
    hide Cycle, Visits, Inv, Step;
  }

  // ---------------------------------------------------------------- nothing is forgotten

  /** Every member of the session has been silent for too long. */
  ghost predicate AllSilent(s: Session, now: Time) {
    forall pid :: pid in s.players ==> LongSilent(s, s.players[pid], now)
  }

  /** A player silent at `start` is still to be visited. */
  ghost predicate PlayerPending(t: Table, todo: seq<Visit>, start: Time, id: SessionId, pid: PlayerId)
    requires Linked(t)
  {
    IsMember(t, id, pid) && LongSilent(t.heap[t.sessions[id]], t.heap[t.sessions[id]].players[pid], start) ==>
      VisitPlayer(id, t.sessions[id], pid) in todo
  }

  /** A session that is old at `start`, and without any player not silent then, is still to be visited. */
  ghost predicate SessionPending(t: Table, todo: seq<Visit>, start: Time, id: SessionId)
    requires Linked(t)
  {
    id in t.sessions && AllSilent(t.heap[t.sessions[id]], start) && start - t.heap[t.sessions[id]].createdAt > 120_000_000_000 ==>
      VisitSession(id, t.sessions[id]) in todo
  }

  /** What is due at `start` is still to be visited; with nothing left to visit, nothing is due. */
  ghost predicate Pending(t: Table, todo: seq<Visit>, start: Time)
    requires Linked(t)
  {
    && (forall id, pid :: PlayerPending(t, todo, start, id, pid))
    && (forall id :: SessionPending(t, todo, start, id))
  }

  /** A visit to a player is followed by one to its session. */
  ghost predicate SessionsFollow(todo: seq<Visit>) {
    forall i :: 0 <= i < |todo| && todo[i].VisitPlayer? ==> VisitSession(todo[i].id, todo[i].r) in todo
  }

  lemma FollowsInTail(todo: seq<Visit>)
    requires todo != [] && SessionsLast(todo) && SessionsFollow(todo)
    ensures SessionsFollow(todo[1..])
  {
    var rest := todo[1..];
    forall i | 0 <= i < |rest| && rest[i].VisitPlayer?
      ensures VisitSession(rest[i].id, rest[i].r) in rest
    {
      assert rest[i] == todo[i + 1];
      var k :| 0 <= k < |todo| && todo[k] == VisitSession(rest[i].id, rest[i].r);
      assert k > 0;
      assert rest[k - 1] == todo[k];
    }
  }

  lemma PlayerVisitEffect(t: Table, todo: seq<Visit>, start: Time, now: Time, id: SessionId, pid: PlayerId)
    requires Linked(t) && todo != [] && todo[0].VisitPlayer? && AllLive(t, todo) && PlayerPending(t, todo, start, id, pid) && now >= start
    ensures PlayerPending(Step(t, VisitEvent(todo[0], now)), todo[1..], start, id, pid)
  {
    var v := todo[0];
    assert t.heap[v.r].id == v.id;
    assert todo == [v] + todo[1..];
  }

  lemma PlayerVisitOnSession(t: Table, todo: seq<Visit>, start: Time, now: Time, id: SessionId)
    requires Linked(t) && todo != [] && todo[0].VisitPlayer? && AllLive(t, todo) && SessionsFollow(todo)
    requires SessionPending(t, todo, start, id)
    ensures SessionPending(Step(t, VisitEvent(todo[0], now)), todo[1..], start, id)
  {
    var v := todo[0];
    assert todo == [v] + todo[1..];
    assert VisitSession(v.id, v.r) in todo[1..];
    if id in t.sessions && id != v.id {
      assert t.heap[t.sessions[id]].id == id && t.heap[v.r].id == v.id;
    }
  }

  lemma PlayerVisitKeepsPending(t: Table, todo: seq<Visit>, start: Time, now: Time)
    requires Linked(t) && todo != [] && todo[0].VisitPlayer? && AllLive(t, todo) && SessionsFollow(todo)
    requires Pending(t, todo, start) && now >= start
    ensures Pending(Step(t, VisitEvent(todo[0], now)), todo[1..], start)
  {
    hide Step, Linked, AllLive, SessionsFollow, PlayerPending, SessionPending;
    var u, rest := Step(t, VisitEvent(todo[0], now)), todo[1..];
    forall id, pid
      ensures PlayerPending(u, rest, start, id, pid)
    {
      PlayerVisitEffect(t, todo, start, now, id, pid);
    }
    forall id
      ensures SessionPending(u, rest, start, id)
    {
      PlayerVisitOnSession(t, todo, start, now, id);
    }
  }

  lemma NoVisitAfter(todo: seq<Visit>, pid: PlayerId)
    requires todo != [] && todo[0].VisitSession? && SessionsLast(todo)
    ensures VisitPlayer(todo[0].id, todo[0].r, pid) !in todo
  {
    forall i | 0 <= i < |todo|
      ensures todo[i] != VisitPlayer(todo[0].id, todo[0].r, pid)
    {
      if i > 0 {
        assert todo[i].id != todo[0].id;
      }
    }
  }

  /** When a session is visited its silent players have all been; if all were silent, it is empty. */
  lemma NoneLeftToVisit(t: Table, todo: seq<Visit>, start: Time)
    requires Linked(t) && todo != [] && todo[0].VisitSession? && AllLive(t, todo) && SessionsLast(todo) && Pending(t, todo, start)
    ensures AllSilent(t.heap[todo[0].r], start) ==> |t.heap[todo[0].r].players| == 0
  {
    var s := t.heap[todo[0].r];
    forall pid | pid in s.players
      ensures !LongSilent(s, s.players[pid], start)
    {
      assert PlayerPending(t, todo, start, todo[0].id, pid);
      NoVisitAfter(todo, pid);
    }
    if AllSilent(s, start) {
      assert s.players.Keys == {};
    }
  }

  lemma SessionVisitEffect(t: Table, v: Visit, start: Time, now: Time)
    requires Linked(t) && v.VisitSession? && v.id in t.sessions && t.sessions[v.id] == v.r && now >= start
    requires AllSilent(t.heap[v.r], start) ==> |t.heap[v.r].players| == 0
    ensures var u := Step(t, VisitEvent(v, now));
      && u.heap == t.heap && (forall id :: id in u.sessions ==> id in t.sessions && u.sessions[id] == t.sessions[id])
      && (AllSilent(t.heap[v.r], start) && start - t.heap[v.r].createdAt > 120_000_000_000 ==> v.id !in u.sessions)
  {
    hide AllSilent;
  }

  lemma SessionVisitKeepsPending(t: Table, todo: seq<Visit>, start: Time, now: Time)
    requires Linked(t) && todo != [] && todo[0].VisitSession? && AllLive(t, todo) && SessionsLast(todo)
    requires Pending(t, todo, start) && now >= start
    ensures Pending(Step(t, VisitEvent(todo[0], now)), todo[1..], start)
  {
    var v, u, rest := todo[0], Step(t, VisitEvent(todo[0], now)), todo[1..];
    assert todo == [v] + rest;
    NoneLeftToVisit(t, todo, start);
    SessionVisitEffect(t, v, start, now);
    hide Step, AllLive, SessionsLast, AllSilent, LongSilent, Linked;
    forall id, pid
      ensures PlayerPending(u, rest, start, id, pid)
    {
      assert PlayerPending(t, todo, start, id, pid);
    }
    forall id
      ensures SessionPending(u, rest, start, id)
    {
      assert SessionPending(t, todo, start, id);
    }
  }

  /** An uninterrupted reaper that has made all its visits leaves nothing that was due when it began. */
  lemma {:induction false} NothingDueIsLeft(t: Table, todo: seq<Visit>, start: Time, stamps: seq<Time>)
    requires Inv(t) && AllLive(t, todo) && SessionsLast(todo) && SessionsFollow(todo) && Pending(t, todo, start)
    requires forall i :: 0 <= i < |stamps| ==> stamps[i] >= start
    ensures var (u, rest) := Cycle(t, todo, Reaps(stamps)); Inv(u) && Pending(u, rest, start)
    decreases |stamps|
  {
    if stamps != [] {
      var now := stamps[0];
      assert Reaps(stamps)[0] == Reap(now) && Reaps(stamps)[1..] == Reaps(stamps[1..]);
      hide Pending;
      AdvanceKeepsInv(t, todo, Reap(now));
      if todo != [] {
        FollowsInTail(todo);
        if todo[0].VisitPlayer? {
          PlayerVisitKeepsPending(t, todo, start, now);
        } else {
          SessionVisitKeepsPending(t, todo, start, now);
        }
      }
      var (u, rest) := Advance(t, todo, Reap(now));
      hide Inv, Step, AllLive, SessionsLast, SessionsFollow;
      NothingDueIsLeft(u, rest, start, stamps[1..]);
    }
  }

  lemma {:induction false} VisitsFollow(cs: seq<Candidate>)
    ensures SessionsFollow(Visits(cs))
    decreases |cs|
  {
    var todo := Visits(cs);
    forall j | 0 <= j < |todo| && todo[j].VisitPlayer?
      ensures VisitSession(todo[j].id, todo[j].r) in todo
    {
      var i := VisitedIdsAreListed(cs, j);
      SessionIsVisited(cs, i);
    }
  }

  lemma {:induction false} SessionIsVisited(cs: seq<Candidate>, i: nat)
    requires i < |cs|
    ensures VisitSession(cs[i].id, cs[i].r) in Visits(cs)
    decreases |cs|
  {
    if i > 0 {
      SessionIsVisited(cs[1..], i - 1);
    }
  }

  lemma {:induction false} PlayerIsVisited(cs: seq<Candidate>, i: nat, pid: PlayerId)
    requires i < |cs| && pid in cs[i].stale
    ensures VisitPlayer(cs[i].id, cs[i].r, pid) in Visits(cs)
    decreases |cs|
  {
    if i > 0 {
      PlayerIsVisited(cs[1..], i - 1, pid);
    } else {
      var k :| 0 <= k < |cs[0].stale| && cs[0].stale[k] == pid;
      assert PlayerVisits(cs[0])[k] == VisitPlayer(cs[0].id, cs[0].r, pid);
    }
  }

  lemma VisitTakesOnlyStale(u: Table, visit: Visit, now: Time)
    requires Inv(u) && visit.id in u.sessions && u.sessions[visit.id] == visit.r
    ensures forall id, pid :: IsMember(u, id, pid) && !IsMember(Step(u, VisitEvent(visit, now)), id, pid) ==>
              IsStale(u.heap[u.sessions[id]], u.heap[u.sessions[id]].players[pid], now)
    ensures forall id :: id in u.sessions && id !in Step(u, VisitEvent(visit, now)).sessions ==>
              IsExpired(u.heap[u.sessions[id]], now)
  {
    var e := VisitEvent(visit, now);
    var v := Step(u, e);
    assert StepSafe(u, e) && u.heap[visit.r].id == visit.id;
    hide Step, IsStale, IndexAgrees, GaugesExact, WithinLimits;
    forall id, pid | IsMember(u, id, pid) && !IsMember(v, id, pid)
      ensures IsStale(u.heap[u.sessions[id]], u.heap[u.sessions[id]].players[pid], now)
    {
      StepMoves(u, e, id, pid);
    }
    forall id | id in u.sessions && id !in v.sessions
      ensures IsExpired(u.heap[u.sessions[id]], now)
    {
      StepMoves(u, e, id, 0);
    }
  }
}
