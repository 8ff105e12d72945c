/** What a run of the relay sends for each packet, and what its counters say about it. */
module RoutingAccounts {
  import opened Bytes
  import opened PlayerTransport
  import opened SessionTable
  import opened Routing
  import Wire = RelayWire

  // ---------------------------------------------------------------- every packet is routed once

  /** The attempts made for one packet, in order. */
  function SentBy(sent: seq<Delivery>, j: JobId): seq<Delivery> {
    if sent == [] then []
    else SentBy(sent[..|sent| - 1], j) + (if sent[|sent| - 1].job == j then [sent[|sent| - 1]] else [])
  }

  lemma {:induction false} SentByAppend(a: seq<Delivery>, b: seq<Delivery>, j: JobId)
    ensures SentBy(a + b, j) == SentBy(a, j) + SentBy(b, j)
    decreases |b|
  {
    if b == [] {
      assert a + b == a;
    } else {
      assert (a + b)[..|a + b| - 1] == a + b[..|b| - 1];
      SentByAppend(a, b[..|b| - 1], j);
    }
  }

  lemma {:induction false} SentByOne(ds: seq<Delivery>, j: JobId, k: JobId)
    requires forall i :: 0 <= i < |ds| ==> ds[i].job == k
    ensures SentBy(ds, j) == if j == k then ds else []
    decreases |ds|
  {
    if ds != [] {
      SentByOne(ds[..|ds| - 1], j, k);
      assert ds == ds[..|ds| - 1] + [ds[|ds| - 1]];
    }
  }

  lemma SentByStep(c: Relay, s: Step, j: JobId)
    requires Linked(c.table) && Enabled(c, s)
    ensures SentBy(Next(c, s).sent, j) == SentBy(c.sent, j) + if s.Route? && s.j == j then NewSends(c, s) else []
  {
    hide Next, Enabled, Linked, NewSends;
    SentGrows(c, s);
    SentByAppend(c.sent, NewSends(c, s), j);
    SentForJob(c, s);
    if s.Route? {
      SentByOne(NewSends(c, s), j, s.j);
    }
  }

  lemma SentForJob(c: Relay, s: Step)
    requires Enabled(c, s)
    ensures !s.Route? ==> NewSends(c, s) == []
    ensures s.Route? ==> forall i :: 0 <= i < |NewSends(c, s)| ==> NewSends(c, s)[i].job == s.j
  {
  }

  ghost predicate IsDone(c: Relay, j: JobId) {
    j in c.jobs && c.jobs[j].phase.Done?
  }

  lemma DoneStaysDone(c: Relay, s: Step, j: JobId)
    requires Linked(c.table) && Enabled(c, s) && IsDone(c, j)
    ensures IsDone(Next(c, s), j) && Next(c, s).jobs[j] == c.jobs[j] && !(s.Route? && s.j == j)
  {
    JobsKeepTheirPacket(c, s, j);
  }

  /** Nothing is sent for a packet that is still under way. */
  lemma {:induction false} NothingSentBefore(ss: seq<Step>, j: JobId)
    requires Possible(ss) && !IsDone(RelayAfter(ss), j)
    ensures SentBy(RelayAfter(ss).sent, j) == []
    decreases |ss|
  {
    if ss != [] {
      var n := |ss| - 1;
      var c := RelayAfter(ss[..n]);
      SentByStep(c, ss[n], j);
      if IsDone(c, j) {
        DoneStaysDone(c, ss[n], j);
      } else {
        NothingSentBefore(ss[..n], j);
        hide SentBy, NewSends;
      }
    }
  }

  lemma RoutingEnds(c: Relay, s: Step)
    requires Linked(c.table) && Enabled(c, s) && s.Route?
    ensures !IsDone(c, s.j) && IsDone(Next(c, s), s.j)
  {
    hide NewSends, Linked;
  }

  /** All that is ever sent for a packet is what its one routing step sends. */
  lemma {:induction false} RoutedOnce(ss: seq<Step>, l: nat)
    requires Possible(ss) && l < |ss| && ss[l].Route?
    ensures Possible(ss[..l]) && Enabled(RelayAfter(ss[..l]), ss[l])
    ensures SentBy(RelayAfter(ss).sent, ss[l].j) == NewSends(RelayAfter(ss[..l]), ss[l])
    ensures IsDone(RelayAfter(ss), ss[l].j) && RelayAfter(ss).jobs[ss[l].j] == Next(RelayAfter(ss[..l]), ss[l]).jobs[ss[l].j]
    decreases |ss|
  {
    hide SentBy, NewSends, Next, Enabled, Linked, Possible, RelayAfter;
    LastStep(ss);
    var n := |ss| - 1;
    var c, j := RelayAfter(ss[..n]), ss[l].j;
    if l == n {
      RoutedLast(ss);
    } else {
      RoutedOnce(ss[..n], l);
      assert ss[..n][..l] == ss[..l];
      SentByStep(c, ss[n], j);
      DoneStaysDone(c, ss[n], j);
    }
  }

  lemma RoutedLast(ss: seq<Step>)
    requires Possible(ss) && ss != [] && ss[|ss| - 1].Route?
    ensures var c, s := RelayAfter(ss[..|ss| - 1]), ss[|ss| - 1];
      SentBy(RelayAfter(ss).sent, s.j) == NewSends(c, s) && IsDone(RelayAfter(ss), s.j)
  {
    hide SentBy, NewSends, Next, Enabled, Linked, Possible, RelayAfter;
    LastStep(ss);
    var n := |ss| - 1;
    var c := RelayAfter(ss[..n]);
    SentByStep(c, ss[n], ss[n].j);
    RoutingEnds(c, ss[n]);
    NothingSentBefore(ss[..n], ss[n].j);
  }

  /** A hello is echoed exactly once, unchanged and to where it came from; it ends badly only if that was TCP and the write failed. */
  lemma HelloIsEchoedOnce(ss: seq<Step>, l: nat)
    requires Possible(ss) && l < |ss| && ss[l].Route?
    requires Possible(ss[..l]) && Enabled(RelayAfter(ss[..l]), ss[l])
    requires DestOf(RelayAfter(ss[..l]).jobs[ss[l].j].data) == SenderOf(RelayAfter(ss[..l]).jobs[ss[l].j].data)
    ensures var job, ds := RelayAfter(ss[..l]).jobs[ss[l].j], SentBy(RelayAfter(ss).sent, ss[l].j);
      && |ds| == 1 && ds[0].hello
      && ds[0].dest == SenderOf(job.data) && ds[0].target == job.source && ds[0].data == job.data
      && ss[l].j in RelayAfter(ss).jobs
      && RelayAfter(ss).jobs[ss[l].j].phase == Done(if job.source.TcpPeer? && !ds[0].ok then EchoFailed else Echoed)
  {
    RoutedOnce(ss, l);
    var c := RelayAfter(ss[..l]);
    hide SentBy, Possible, RelayAfter, Linked, Walks, CountRoute;
  }

  function Dests(ds: seq<Delivery>): seq<PlayerId> {
    seq(|ds|, i requires 0 <= i < |ds| => ds[i].dest)
  }

  /**
   A broadcast is attempted at most once to each other member of its session that is reachable when it is routed, and to nobody
   else; it is attempted to all of them exactly when it is not too large for a TCP member among them.
   */
  lemma BroadcastReachesEachOnce(ss: seq<Step>, l: nat)
    requires Possible(ss) && l < |ss| && ss[l].Route?
    requires Possible(ss[..l]) && Enabled(RelayAfter(ss[..l]), ss[l])
    requires DestOf(RelayAfter(ss[..l]).jobs[ss[l].j].data) == Wire.BROADCAST != SenderOf(RelayAfter(ss[..l]).jobs[ss[l].j].data)
    ensures var job := RelayAfter(ss[..l]).jobs[ss[l].j];
      var members := RelayAfter(ss[..l]).table.heap[job.phase.r].players;
      var dests := Dests(SentBy(RelayAfter(ss).sent, ss[l].j));
      && (forall i :: 0 <= i < |dests| ==> dests[i] in Reachable(members, SenderOf(job.data)))
      && (forall i, k :: 0 <= i < k < |dests| ==> dests[i] != dests[k])
      && (Enumerates(dests, Reachable(members, SenderOf(job.data))) <==> !TooLargeFor(members, job.data))
  {
    RoutedOnce(ss, l);
    var c := RelayAfter(ss[..l]);
    var job := c.jobs[ss[l].j];
    WalkReaches(c.table.heap[job.phase.r].players, job.data, ss[l].order);
    assert Dests(NewSends(c, ss[l])) == Attempted(c.table.heap[job.phase.r].players, job.data, ss[l].order);
  }

  lemma WalkReaches(players: map<PlayerId, PlayerInfo>, data: seq<byte>, order: seq<PlayerId>)
    requires |data| >= Wire.HEADER_SIZE && Walks(players, data, order)
    ensures Enumerates(Attempted(players, data, order), Addressees(players, data)) <==> !TooLargeFor(players, data)
  {
    StuckIff(players, data, order);
    hide TooLargeFor, Addressees;
    if Stuck(players, data, order) {
      var last := order[|order| - 1];
      assert last in Addressees(players, data) && last !in Attempted(players, data, order);
    }
  }

  // ---------------------------------------------------------------- counters

  /** What a packet adds to the counters once it is done. */
  function Weight(job: Job): nat {
    match job.phase
    case Done(EchoFailed) => 0
    case Done(Broadcast(n)) => n
    case Done(Crashed(n)) => n
    case Done(_) => 1
    case _ => 0
  }

  ghost function PickJob(js: set<JobId>): JobId
    requires js != {}
  {
    var j :| j in js; j
  }

  ghost function TotalWeight(jobs: map<JobId, Job>): nat
    decreases |jobs|
  {
    if |jobs| == 0 then 0
    else
      assert jobs.Keys != {};
      var j := PickJob(jobs.Keys);
      assert |jobs - {j}| < |jobs| by { RemoveKeys(jobs, {j}); }
      Weight(jobs[j]) + TotalWeight(jobs - {j})
  }

  lemma {:induction false} TotalWithout(jobs: map<JobId, Job>, j: JobId)
    requires j in jobs
    ensures TotalWeight(jobs) == Weight(jobs[j]) + TotalWeight(jobs - {j})
    decreases |jobs|
  {
    var k := PickJob(jobs.Keys);
    if k != j {
      RemoveKeys(jobs, {k});
      RemoveKeys(jobs, {j});
      TotalWithout(jobs - {k}, j);
      TotalWithout(jobs - {j}, k);
      assert jobs - {k} - {j} == jobs - {j} - {k};
    }
  }

  lemma TotalUpdate(jobs: map<JobId, Job>, j: JobId, job: Job)
    ensures TotalWeight(jobs[j := job]) + (if j in jobs then Weight(jobs[j]) else 0) == TotalWeight(jobs) + Weight(job)
  {
    hide TotalWeight, Weight;
    var updated := jobs[j := job];
    TotalWithout(updated, j);
    if j in jobs {
      TotalWithout(jobs, j);
      assert updated - {j} == jobs - {j};
    } else {
      assert updated - {j} == jobs;
    }
  }

  /** Bytes of the attempts that succeeded, hellos aside. */
  function BytesSent(sent: seq<Delivery>): nat {
    if sent == [] then 0
    else
      var d := sent[|sent| - 1];
      BytesSent(sent[..|sent| - 1]) + if d.ok && !d.hello then |d.data| else 0
  }

  lemma {:induction false} BytesAppend(a: seq<Delivery>, b: seq<Delivery>)
    ensures BytesSent(a + b) == BytesSent(a) + BytesSent(b)
    decreases |b|
  {
    if b == [] {
      assert a + b == a;
    } else {
      assert (a + b)[..|a + b| - 1] == a + b[..|b| - 1];
      BytesAppend(a, b[..|b| - 1]);
    }
  }

  lemma {:induction false} CountTotals(m: Metrics, ds: seq<Delivery>)
    requires forall i :: 0 <= i < |ds| ==> !ds[i].hello
    ensures Count(m, ds).Total() == m.Total() + |ds|
    ensures Count(m, ds).bytes == m.bytes + BytesSent(ds)
    decreases |ds|
  {
    if ds != [] {
      CountTotals(m, ds[..|ds| - 1]);
    }
  }

  /** Whatever routing a packet comes to, the counters grow by the weight of its outcome and the bytes by those of its sends. */
  lemma RoutedWeight(m: Metrics, players: map<PlayerId, PlayerInfo>, j: JobId, source: Endpoint, data: seq<byte>,
                     order: seq<PlayerId>, failing: set<PlayerId>)
    requires |data| >= Wire.HEADER_SIZE && Walks(players, data, order)
    ensures var ds := Sends(players, j, source, data, order, failing);
      var outcome := RouteOutcome(players, source, data, order, ds);
      && CountRoute(m, outcome, ds).Total() == m.Total() + Weight(Job(source, data, Done(outcome)))
      && CountRoute(m, outcome, ds).bytes == m.bytes + BytesSent(ds)
  {
    var ds := Sends(players, j, source, data, order, failing);
    hide Walks, Addressees;
    if DestOf(data) == SenderOf(data) {
      assert BytesSent(ds[..0]) == 0 && BytesSent(ds) == 0;
    } else {
      CountTotals(m, ds);
      hide Count;
      assert ds == [] ==> BytesSent(ds) == 0;
    }
  }

  lemma RouteTotals(c: Relay, s: Step)
    requires Linked(c.table) && Enabled(c, s) && s.Route?
    ensures Next(c, s).jobs == c.jobs[s.j := Next(c, s).jobs[s.j]] && Weight(c.jobs[s.j]) == 0
    ensures Next(c, s).metrics.Total() == c.metrics.Total() + Weight(Next(c, s).jobs[s.j])
    ensures Next(c, s).metrics.bytes == c.metrics.bytes + BytesSent(NewSends(c, s))
  {
    var job := c.jobs[s.j];
    RoutedWeight(c.metrics, c.table.heap[job.phase.r].players, s.j, job.source, job.data, s.order, s.failing);
    hide Linked, Walks, Sends, CountRoute, RouteOutcome, BytesSent;
  }

  /** What one step adds to the counters is the weight it gives to the packet it works on. */
  lemma StepWeight(c: Relay, s: Step)
    requires Linked(c.table) && Enabled(c, s) && !s.TableStep?
    ensures Next(c, s).jobs == c.jobs[s.j := Next(c, s).jobs[s.j]]
    ensures (if s.j in c.jobs then Weight(c.jobs[s.j]) else 0) == 0
    ensures Next(c, s).metrics.Total() == c.metrics.Total() + Weight(Next(c, s).jobs[s.j])
    ensures !s.Route? ==> Next(c, s).metrics.bytes == c.metrics.bytes
  {
    if s.Route? {
      RouteTotals(c, s);
      hide Next, Enabled, Linked, Weight, NewSends;
    } else {
      hide Linked, Walks, Deliver, CountRoute, RouteOutcome, NewSends;
    }
  }

  lemma StepTotals(c: Relay, s: Step)
    requires Linked(c.table) && Enabled(c, s)
    ensures Next(c, s).metrics.Total() + TotalWeight(c.jobs) == c.metrics.Total() + TotalWeight(Next(c, s).jobs)
    ensures Next(c, s).metrics.bytes + BytesSent(c.sent) == c.metrics.bytes + BytesSent(Next(c, s).sent)
  {
    SentGrows(c, s);
    BytesAppend(c.sent, NewSends(c, s));
    if s.Route? {
      RouteTotals(c, s);
    } else {
      assert NewSends(c, s) == [];
    }
    if !s.TableStep? {
      StepWeight(c, s);
      hide Linked, Next, Enabled, NewSends, TotalWeight, BytesSent, Weight;
      TotalUpdate(c.jobs, s.j, Next(c, s).jobs[s.j]);
    }
  }

  /**
   The four packet counters together have grown by one per datagram or frame, except that a broadcast counts each reachable
   other member, an echo that fails over TCP counts nothing, and a packet that crashed the relay counts the attempts made
   before; the byte counter sums the successful sends but hellos.
   */
  ghost predicate AddsUp(c: Relay) {
    c.metrics.Total() == TotalWeight(c.jobs) && c.metrics.bytes == BytesSent(c.sent)
  }

  lemma StepAddsUp(c: Relay, s: Step)
    requires Linked(c.table) && Enabled(c, s) && AddsUp(c)
    ensures AddsUp(Next(c, s))
  {
    hide Linked, Next, Enabled, TotalWeight, BytesSent;
    StepTotals(c, s);
  }

  lemma {:induction false} CountersAddUp(ss: seq<Step>)
    requires Possible(ss)
    ensures AddsUp(RelayAfter(ss))
    decreases |ss|
  {
    if ss == [] {
      assert AddsUp(START);
    } else {
      hide Linked, Next, Enabled, AddsUp;
      CountersAddUp(ss[..|ss| - 1]);
      StepAddsUp(RelayAfter(ss[..|ss| - 1]), ss[|ss| - 1]);
    }
  }

  // ---------------------------------------------------------------- each counter

  /** How many packets ended with one of these outcomes. */
  ghost function Tally(jobs: map<JobId, Job>, outcomes: set<Outcome>): nat {
    |Ended(jobs, outcomes)|
  }

  ghost function Ended(jobs: map<JobId, Job>, outcomes: set<Outcome>): set<JobId> {
    set j | j in jobs && jobs[j].phase.Done? && jobs[j].phase.outcome in outcomes
  }

  /** How many attempts other than hellos succeeded, or failed. */
  function Attempts(sent: seq<Delivery>, ok: bool): nat {
    if sent == [] then 0
    else
      var d := sent[|sent| - 1];
      Attempts(sent[..|sent| - 1], ok) + if !d.hello && d.ok == ok then 1 else 0
  }

  lemma {:induction false} AttemptsAppend(a: seq<Delivery>, b: seq<Delivery>, ok: bool)
    ensures Attempts(a + b, ok) == Attempts(a, ok) + Attempts(b, ok)
    decreases |b|
  {
    if b == [] {
      assert a + b == a;
    } else {
      assert (a + b)[..|a + b| - 1] == a + b[..|b| - 1];
      AttemptsAppend(a, b[..|b| - 1], ok);
    }
  }

  lemma {:induction false} CountsAttempts(m: Metrics, ds: seq<Delivery>)
    requires forall i :: 0 <= i < |ds| ==> !ds[i].hello
    ensures Count(m, ds).routed == m.routed + Attempts(ds, true) && Count(m, ds).dropped == m.dropped + Attempts(ds, false)
    ensures Count(m, ds).spoofed == m.spoofed && Count(m, ds).rateLimited == m.rateLimited
    decreases |ds|
  {
    if ds != [] {
      CountsAttempts(m, ds[..|ds| - 1]);
    }
  }

  lemma TallyUpdate(jobs: map<JobId, Job>, j: JobId, job: Job, outcomes: set<Outcome>)
    requires j !in jobs || !jobs[j].phase.Done?
    ensures Tally(jobs[j := job], outcomes) == Tally(jobs, outcomes) + if job.phase.Done? && job.phase.outcome in outcomes then 1 else 0
  {
    var before, after := Ended(jobs, outcomes), Ended(jobs[j := job], outcomes);
    if job.phase.Done? && job.phase.outcome in outcomes {
      assert after == before + {j};
    } else {
      assert after == before;
    }
  }

  const SPOOFS: set<Outcome> := {SpoofedSource}
  const LIMITS: set<Outcome> := {OverRate}
  const ECHOES: set<Outcome> := {Echoed}

  /** The outcomes counted as dropped, all told. */
  const DROPS: set<Outcome> := {TooShort, NoSession, NotMember, Unreachable}

  /** What each counter has to say. */
  ghost predicate Balanced(c: Relay) {
    && c.metrics.spoofed == Tally(c.jobs, SPOOFS)
    && c.metrics.rateLimited == Tally(c.jobs, LIMITS)
    && c.metrics.routed == Tally(c.jobs, ECHOES) + Attempts(c.sent, true)
    && c.metrics.dropped == Tally(c.jobs, DROPS) + Attempts(c.sent, false)
  }

  /** What a packet that is done, and the attempts it took, add to each counter. */
  ghost predicate Adds(m: Metrics, phase: Phase, ds: seq<Delivery>, m': Metrics) {
    && m'.spoofed == m.spoofed + (if phase == Done(SpoofedSource) then 1 else 0)
    && m'.rateLimited == m.rateLimited + (if phase == Done(OverRate) then 1 else 0)
    && m'.routed == m.routed + (if phase == Done(Echoed) then 1 else 0) + Attempts(ds, true)
    && m'.dropped == m.dropped + (if phase.Done? && phase.outcome in DROPS then 1 else 0) + Attempts(ds, false)
  }

  lemma RouteAdds(m: Metrics, players: map<PlayerId, PlayerInfo>, j: JobId, source: Endpoint, data: seq<byte>,
                  order: seq<PlayerId>, failing: set<PlayerId>)
    requires |data| >= Wire.HEADER_SIZE && Walks(players, data, order)
    ensures var ds := Sends(players, j, source, data, order, failing);
      var outcome := RouteOutcome(players, source, data, order, ds);
      Adds(m, Done(outcome), ds, CountRoute(m, outcome, ds))
  {
    var ds := Sends(players, j, source, data, order, failing);
    hide Walks, Addressees;
    if DestOf(data) == SenderOf(data) {
      assert Attempts(ds[..0], true) == 0 && Attempts(ds[..0], false) == 0;
      assert Attempts(ds, true) == 0 && Attempts(ds, false) == 0;
    } else {
      CountsAttempts(m, ds);
      hide Count;
      assert ds == [] ==> Attempts(ds, true) == 0 && Attempts(ds, false) == 0;
    }
  }

  lemma StepAdds(c: Relay, s: Step)
    requires Linked(c.table) && Enabled(c, s) && !s.TableStep?
    ensures Adds(c.metrics, Next(c, s).jobs[s.j].phase, NewSends(c, s), Next(c, s).metrics)
    ensures s.j !in c.jobs || !c.jobs[s.j].phase.Done?
  {
    if s.Route? {
      var job := c.jobs[s.j];
      RouteAdds(c.metrics, c.table.heap[job.phase.r].players, s.j, job.source, job.data, s.order, s.failing);
      hide Linked, Walks, Sends, CountRoute, RouteOutcome, Adds;
    } else {
      assert Attempts(NewSends(c, s), true) == 0 && Attempts(NewSends(c, s), false) == 0;
      hide Linked, Walks, Deliver, CountRoute, RouteOutcome, Attempts;
    }
  }

  /** The tallies grow by what the packet worked on has come to. */
  lemma TalliesGrow(jobs: map<JobId, Job>, j: JobId, job: Job)
    requires j !in jobs || !jobs[j].phase.Done?
    ensures Tally(jobs[j := job], SPOOFS) == Tally(jobs, SPOOFS) + if job.phase == Done(SpoofedSource) then 1 else 0
    ensures Tally(jobs[j := job], LIMITS) == Tally(jobs, LIMITS) + if job.phase == Done(OverRate) then 1 else 0
    ensures Tally(jobs[j := job], ECHOES) == Tally(jobs, ECHOES) + if job.phase == Done(Echoed) then 1 else 0
    ensures Tally(jobs[j := job], DROPS) == Tally(jobs, DROPS) + if job.phase.Done? && job.phase.outcome in DROPS then 1 else 0
  {
    hide Tally;
    TallyUpdate(jobs, j, job, SPOOFS);
    TallyUpdate(jobs, j, job, LIMITS);
    TallyUpdate(jobs, j, job, ECHOES);
    TallyUpdate(jobs, j, job, DROPS);
  }

  lemma StepBalances(c: Relay, s: Step)
    requires Linked(c.table) && Enabled(c, s) && Balanced(c)
    ensures Balanced(Next(c, s))
  {
    hide Linked, Next, Enabled, NewSends, Tally, Attempts;
    if s.TableStep? {
      TableStepSendsNothing(c, s);
    } else {
      SentGrows(c, s);
      StepWeight(c, s);
      StepAdds(c, s);
      AttemptsAppend(c.sent, NewSends(c, s), true);
      AttemptsAppend(c.sent, NewSends(c, s), false);
      TalliesGrow(c.jobs, s.j, Next(c, s).jobs[s.j]);
    }
  }

  lemma TableStepSendsNothing(c: Relay, s: Step)
    requires Linked(c.table) && Enabled(c, s) && s.TableStep?
    ensures Next(c, s).jobs == c.jobs && Next(c, s).sent == c.sent && Next(c, s).metrics == c.metrics
  {
    hide Linked;
  }

  /**
   In every run: spoofed and rate-limited count the packets refused so; routed counts the hellos echoed and the other attempts that
   succeeded; dropped counts the packets too short, without session, without membership or without reachable destination, and the
   attempts that failed.
   */
  lemma {:induction false} EveryCounterIsExact(ss: seq<Step>)
    requires Possible(ss)
    ensures Balanced(RelayAfter(ss))
    decreases |ss|
  {
    if ss == [] {
      assert Ended(START.jobs, SPOOFS) == Ended(START.jobs, LIMITS) == Ended(START.jobs, ECHOES) == Ended(START.jobs, DROPS) == {};
    } else {
      hide Linked, Next, Enabled, Balanced;
      EveryCounterIsExact(ss[..|ss| - 1]);
      StepBalances(RelayAfter(ss[..|ss| - 1]), ss[|ss| - 1]);
    }
  }

  /** The number a broadcast is counted for is the number of its reachable other members, unless it crashes the relay; then it is less. */
  lemma BroadcastWeight(c: Relay, s: Step)
    requires Linked(c.table) && Enabled(c, s) && s.Route?
    requires DestOf(c.jobs[s.j].data) == Wire.BROADCAST != SenderOf(c.jobs[s.j].data)
    ensures var members, weight := c.table.heap[c.jobs[s.j].phase.r].players, Weight(Next(c, s).jobs[s.j]);
      && (!Next(c, s).crashed ==> weight == |Reachable(members, SenderOf(c.jobs[s.j].data))|)
      && (Next(c, s).crashed ==> weight < |Reachable(members, SenderOf(c.jobs[s.j].data))|)
  {
    var data := c.jobs[s.j].data;
    var all := Reachable(c.table.heap[c.jobs[s.j].phase.r].players, SenderOf(data));
    DistinctLength(s.order, all);
    if !Next(c, s).crashed {
      EnumerationLength(s.order, all);
    }
    hide Linked, CountRoute, Reachable;
  }

  lemma DistinctLength(order: seq<PlayerId>, s: set<PlayerId>)
    requires forall i :: 0 <= i < |order| ==> order[i] in s
    requires forall i, j :: 0 <= i < j < |order| ==> order[i] != order[j]
    ensures |order| <= |s|
  {
    if order != [] {
      DistinctLength(order[..|order| - 1], s - {order[|order| - 1]});
    }
  }

  lemma {:induction false} EnumerationLength(order: seq<PlayerId>, s: set<PlayerId>)
    requires Enumerates(order, s)
    ensures |order| == |s|
    decreases |order|
  {
    if order == [] {
      assert s == {};
    } else {
      var n := |order| - 1;
      var rest, p := order[..n], order[n];
      forall q | q in s - {p}
        ensures q in rest
      {
        var i :| 0 <= i < |order| && order[i] == q;
        assert rest[i] == q;
      }
      EnumerationLength(rest, s - {p});
    }
  }
}
