/** What becomes of a packet before it is routed: at its arrival, when its sender is looked up, and when it is judged. */
module PacketFates {
  import opened Bytes
  import opened PlayerTransport
  import opened SessionTable
  import opened SessionRuns
  import opened Registrations
  import opened Routing
  import Wire = RelayWire

  // ---------------------------------------------------------------- the table inside the relay

  /** What a step of the relay is to the session table: an operation, a packet delivered to a session object, or nothing. */
  ghost function EventOf(c: Relay, s: Routing.Step): seq<Event>
    requires Enabled(c, s)
  {
    match s
    case TableStep(e) => [e]
    case Admit(j, now) => [PacketEv(c.jobs[j].phase.r, SenderOf(c.jobs[j].data), c.jobs[j].source, now)]
    case _ => []
  }

  ghost function EventsOf(ss: seq<Routing.Step>): seq<Event>
    requires Possible(ss)
    decreases |ss|
  {
    if ss == [] then [] else EventsOf(ss[..|ss| - 1]) + EventOf(RelayAfter(ss[..|ss| - 1]), ss[|ss| - 1])
  }

  lemma StepOnTable(c: Relay, s: Routing.Step)
    requires Linked(c.table) && Enabled(c, s)
    ensures var es := EventOf(c, s);
      && |es| <= 1
      && Next(c, s).table == if es == [] then c.table else SessionRuns.Step(c.table, es[0])
  {
    hide Linked, Walks, CountRoute, RouteOutcome, Receive;
  }

  /** In every run of the relay, its table is a run of the table: everything proved of those holds of it. */
  lemma {:induction false} TableIsRun(ss: seq<Routing.Step>)
    requires Possible(ss)
    ensures RelayAfter(ss).table == Run(EMPTY, EventsOf(ss))
    decreases |ss|
  {
    if ss != [] {
      LastStep(ss);
      var before := ss[..|ss| - 1];
      TableIsRun(before);
      var c, es := RelayAfter(before), EventOf(RelayAfter(before), ss[|ss| - 1]);
      StepOnTable(c, ss[|ss| - 1]);
      hide Next, Enabled, EventOf, SessionRuns.Step, Possible, RelayAfter;
      if es == [] {
        assert EventsOf(before) + es == EventsOf(before);
      } else {
        assert es == [es[0]];
        RunAppend(EMPTY, EventsOf(before), es[0]);
      }
    }
  }

  // ---------------------------------------------------------------- arrival and lookup

  /** A packet too short for a header goes no further; any other is to be looked up. */
  lemma ArrivalFate(c: Relay, s: Routing.Step)
    requires Linked(c.table) && Enabled(c, s) && s.Arrive?
    ensures Next(c, s).jobs[s.j] == Job(s.source, s.data, if |s.data| < 8 then Done(TooShort) else Arrived)
  {
  }

  /** The sender's packet goes to the one live session that holds the sender, and no further if there is none. */
  lemma LookupFate(c: Relay, s: Routing.Step)
    requires Inv(c.table) && Enabled(c, s) && s.Lookup?
    ensures var sender, phase := SenderOf(c.jobs[s.j].data), Next(c, s).jobs[s.j].phase;
      && (forall id :: IsMember(c.table, id, sender) ==> phase == Found(c.table.sessions[id]))
      && ((forall id :: !IsMember(c.table, id, sender)) ==> phase == Done(NoSession))
  {
    var sender := SenderOf(c.jobs[s.j].data);
    forall id
      ensures Indexed(c.table, id, sender) <==> IsMember(c.table, id, sender)
    {
    }
    if sender in c.table.index {
      assert Indexed(c.table, c.table.index[sender], sender);
    }
    hide GaugesExact, WithinLimits, IndexAgrees;
  }

  // ---------------------------------------------------------------- judgement

  /** Where a packet stands once it has been judged by session object `r`, told from the registration it met there. */
  ghost function Judged(reg: Registration, r: Ref, from: Endpoint, now: Time): Phase {
    match reg
    case Absent => Done(NotMember)
    case Present(login, h) =>
      var all := h + [Packet(from, now)];
      if FromElsewhere(login, all, |h|) then Done(SpoofedSource)
      else if VerdictAt(login, all, |h|) == RateLimited then Done(OverRate)
      else Admitted(r)
  }

  /** In every run, a packet is judged by its sender's own history of joins, resets and packets in the session object it was found in. */
  lemma JudgedByHistory(ss: seq<Routing.Step>)
    requires Possible(ss) && ss != [] && ss[|ss| - 1].Admit?
    ensures var n := |ss| - 1;
      var c, j := RelayAfter(ss[..n]), ss[n].j;
      var job := c.jobs[j];
      && j in RelayAfter(ss).jobs
      && RelayAfter(ss).jobs[j].phase ==
         Judged(Observed(EventsOf(ss[..n]), job.phase.r, SenderOf(job.data)), job.phase.r, job.source, ss[n].now)
  {
    hide Next, Possible, RelayAfter, Run, EventsOf, Observed, Judged, Linked;
    LastStep(ss);
    var n := |ss| - 1;
    var c := RelayAfter(ss[..n]);
    assert Enabled(c, ss[n]);
    var job := c.jobs[ss[n].j];
    TableIsRun(ss[..n]);
    RecordsMatchHistories(EventsOf(ss[..n]), job.phase.r, SenderOf(job.data));
    JudgedAs(c, ss[n], Observed(EventsOf(ss[..n]), job.phase.r, SenderOf(job.data)));
  }

  /** A packet meets the record that a registration has led to. */
  lemma JudgedAs(c: Relay, s: Routing.Step, reg: Registration)
    requires Linked(c.table) && Enabled(c, s) && s.Admit?
    requires reg.Present? <==> IsIn(c.table, c.jobs[s.j].phase.r, SenderOf(c.jobs[s.j].data))
    requires reg.Present? ==>
      c.table.heap[c.jobs[s.j].phase.r].players[SenderOf(c.jobs[s.j].data)] == After(reg.login, reg.history)
    ensures s.j in Next(c, s).jobs
    ensures Next(c, s).jobs[s.j].phase == Judged(reg, c.jobs[s.j].phase.r, c.jobs[s.j].source, s.now)
  {
    VerdictLeads(c, s);
    var job := c.jobs[s.j];
    if reg.Present? {
      VerdictOf(reg.login, reg.history, c.table.heap[job.phase.r].players[SenderOf(job.data)], job.source, s.now);
    }
    hide Linked, FromElsewhere, VerdictAt, Receive, After, Next;
  }

  /** What the verdict on a record makes of a packet. */
  lemma VerdictLeads(c: Relay, s: Routing.Step)
    requires Linked(c.table) && Enabled(c, s) && s.Admit?
    ensures s.j in Next(c, s).jobs
    ensures var job, phase := c.jobs[s.j], Next(c, s).jobs[s.j].phase;
      var players := c.table.heap[job.phase.r].players;
      if SenderOf(job.data) !in players then phase == Done(NotMember)
      else
        match Receive(players[SenderOf(job.data)], job.source, s.now).1
        case Spoofed => phase == Done(SpoofedSource)
        case RateLimited => phase == Done(OverRate)
        case Unknown => phase == Done(NotMember)
        case _ => phase == Admitted(job.phase.r)
  {
    hide Linked, Walks, CountRoute, RouteOutcome, Receive;
  }

  lemma VerdictOf(login: string, h: History, p: PlayerInfo, from: Endpoint, now: Time)
    requires p == After(login, h)
    ensures var all, v := h + [Packet(from, now)], Receive(p, from, now).1;
      && v == VerdictAt(login, all, |h|) && v != Unknown
      && (v == Spoofed <==> FromElsewhere(login, all, |h|))
  {
    var all := h + [Packet(from, now)];
    assert all[..|h|] == h;
    SpoofedIff(login, all, |h|);
  }

  // ---------------------------------------------------------------- reach

  /**
   In every run, a packet can be handed to exactly those other players of a session object from whom a packet has been accepted
   since they joined or rejoined, and then to the source of the latest such packet.
   */
  lemma ReachableByHistory(ss: seq<Routing.Step>, r: Ref, sender: PlayerId, p: PlayerId)
    requires Possible(ss) && r in RelayAfter(ss).table.heap
    ensures var players, reg := RelayAfter(ss).table.heap[r].players, Observed(EventsOf(ss), r, p);
      && (p in Reachable(players, sender) <==> p != sender && reg.Present? && !NoneAccepted(reg.login, reg.history))
      && (p in Reachable(players, sender) ==>
            forall i: nat :: IsLatest(reg.login, reg.history, i) ==> Target(players[p]) == Some(reg.history[i].from))
  {
    hide Possible, RelayAfter, Run, EventsOf, Observed, NoneAccepted, IsLatest, Linked;
    TableIsRun(ss);
    RecordsMatchHistories(EventsOf(ss), r, p);
    if Observed(EventsOf(ss), r, p).Present? {
      TargetsFollowHistory(EventsOf(ss), r, p);
    }
  }
}
