/**
 Packets on their way through the relay. Handling one packet takes several critical sections
 (find the sender's session, admit the packet there, look up targets and send); between them any
 number of other packets and membership changes may happen.
 */
module Routing {
  import opened Bytes
  import opened PlayerTransport
  import opened SessionTable
  import opened SessionRuns
  import Wire = RelayWire

  type JobId = nat

  datatype Outcome =
    | TooShort | NoSession | NotMember | SpoofedSource | OverRate
    | Echoed | EchoFailed | Unreachable | Unicast | Broadcast(attempts: nat) | Crashed(attempts: nat)

  datatype Phase = Arrived | Found(r: Ref) | Admitted(r: Ref) | Done(outcome: Outcome)

  /** One datagram or frame being handled. */
  datatype Job = Job(source: Endpoint, data: seq<byte>, phase: Phase)

  /** One attempt to send. */
  datatype Delivery = Delivery(job: JobId, dest: PlayerId, target: Endpoint, data: seq<byte>, ok: bool, hello: bool)

  datatype Metrics = Metrics(routed: nat, dropped: nat, spoofed: nat, rateLimited: nat, bytes: nat) {
    function Total(): nat {
      routed + dropped + spoofed + rateLimited
    }
  }

  /** A panic in any thread ends the process: a crashed relay takes no more steps. */
  datatype Relay = Relay(table: Table, jobs: map<JobId, Job>, sent: seq<Delivery>, metrics: Metrics, crashed: bool)

  const START := Relay(EMPTY, map[], [], Metrics(0, 0, 0, 0, 0), false)

  /** Routing carries the members in the order a broadcast meets them, and whose sends fail. */
  datatype Step =
    | TableStep(e: Event)
    | Arrive(j: JobId, source: Endpoint, data: seq<byte>)
    | Lookup(j: JobId)
    | Admit(j: JobId, now: Time)
    | Route(j: JobId, order: seq<PlayerId>, failing: set<PlayerId>)

  // ---------------------------------------------------------------- sending

  function SenderOf(data: seq<byte>): PlayerId
    requires |data| >= Wire.HEADER_SIZE
  {
    Wire.DecodePacket(data).value.sender
  }

  function DestOf(data: seq<byte>): PlayerId
    requires |data| >= Wire.HEADER_SIZE
  {
    Wire.DecodePacket(data).value.dest
  }

  /** What a reader can hand over: a UDP datagram cut to its buffer, or a TCP frame of an accepted length. */
  predicate Readable(source: Endpoint, data: seq<byte>) {
    if source.TcpPeer? then Wire.Accepts(Wire.Relay, |data|) else |data| <= Wire.RECEIVE_BUFFER
  }

  /** The TCP frame writer slices a pooled buffer of fixed size and panics on anything larger; UDP has no such limit. */
  predicate Fits(target: Endpoint, data: seq<byte>) {
    target.TcpPeer? ==> |data| <= Wire.MAX_PACKET
  }

  /** The other members a packet can be sent to. */
  function Reachable(players: map<PlayerId, PlayerInfo>, sender: PlayerId): set<PlayerId> {
    set p | p in players && p != sender && Target(players[p]).Some?
  }

  /** The members a packet is to be handed to; a hello is handed to none. */
  function Addressees(players: map<PlayerId, PlayerInfo>, data: seq<byte>): set<PlayerId>
    requires |data| >= Wire.HEADER_SIZE
  {
    var all := Reachable(players, SenderOf(data));
    if DestOf(data) == Wire.BROADCAST != SenderOf(data) then all else all * {DestOf(data)}
  }

  /** The packet is too large for one of the members it is to be handed to. */
  ghost predicate TooLargeFor(players: map<PlayerId, PlayerInfo>, data: seq<byte>)
    requires |data| >= Wire.HEADER_SIZE
  {
    |data| > Wire.MAX_PACKET && exists p :: p in Addressees(players, data) && Target(players[p]).value.TcpPeer?
  }

  ghost predicate Enumerates(order: seq<PlayerId>, s: set<PlayerId>) {
    && (forall i :: 0 <= i < |order| ==> order[i] in s)
    && (forall p :: p in s ==> p in order)
    && (forall i, j :: 0 <= i < j < |order| ==> order[i] != order[j])
  }

  /** The last member met cannot be written to, and the writer panics there. */
  predicate Stuck(players: map<PlayerId, PlayerInfo>, data: seq<byte>, order: seq<PlayerId>) {
    order != [] &&
    var last := order[|order| - 1];
    last in players && Target(players[last]).Some? && !Fits(Target(players[last]).value, data)
  }

  /** The members met, each once: up to the first that cannot be written to, or all. */
  ghost predicate Walks(players: map<PlayerId, PlayerInfo>, data: seq<byte>, order: seq<PlayerId>)
    requires |data| >= Wire.HEADER_SIZE
  {
    var all := Addressees(players, data);
    && (forall i :: 0 <= i < |order| ==> order[i] in all)
    && (forall i, j :: 0 <= i < j < |order| ==> order[i] != order[j])
    && (forall i :: 0 <= i < |order| - 1 ==> Fits(Target(players[order[i]]).value, data))
    && (Stuck(players, data, order) || forall p :: p in all ==> p in order)
  }

  /** The members actually written to. */
  function Attempted(players: map<PlayerId, PlayerInfo>, data: seq<byte>, order: seq<PlayerId>): seq<PlayerId> {
    if Stuck(players, data, order) then order[..|order| - 1] else order
  }

  function SendAll(players: map<PlayerId, PlayerInfo>, j: JobId, data: seq<byte>, order: seq<PlayerId>,
                   failing: set<PlayerId>): (ds: seq<Delivery>)
    requires forall i :: 0 <= i < |order| ==> order[i] in players && Target(players[order[i]]).Some?
    ensures |ds| == |order|
  {
    seq(|order|, i requires 0 <= i < |order| =>
      Delivery(j, order[i], Target(players[order[i]]).value, data, order[i] !in failing, false))
  }

  /** What routing a packet sends, given the members of the session that admitted it. */
  function Sends(players: map<PlayerId, PlayerInfo>, j: JobId, source: Endpoint, data: seq<byte>,
                 order: seq<PlayerId>, failing: set<PlayerId>): seq<Delivery>
    requires |data| >= Wire.HEADER_SIZE && Walks(players, data, order)
  {
    if DestOf(data) == SenderOf(data) then [Delivery(j, SenderOf(data), source, data, SenderOf(data) !in failing, true)]
    else SendAll(players, j, data, Attempted(players, data, order), failing)
  }

  function RouteOutcome(players: map<PlayerId, PlayerInfo>, source: Endpoint, data: seq<byte>, order: seq<PlayerId>,
                        ds: seq<Delivery>): Outcome
    requires |data| >= Wire.HEADER_SIZE
  {
    if DestOf(data) == SenderOf(data) then
      if source.TcpPeer? && ds != [] && !ds[0].ok then EchoFailed else Echoed
    else if Stuck(players, data, order) then Crashed(|ds|)
    else if DestOf(data) == Wire.BROADCAST then Broadcast(|ds|)
    else if ds == [] then Unreachable
    else Unicast
  }

  /** Each attempt counts as routed, with its bytes, or as dropped. */
  function Count(m: Metrics, ds: seq<Delivery>): Metrics {
    if ds == [] then m
    else
      var before, d := Count(m, ds[..|ds| - 1]), ds[|ds| - 1];
      if d.ok then before.(routed := before.routed + 1, bytes := before.bytes + |d.data|)
      else before.(dropped := before.dropped + 1)
  }

  function CountRoute(m: Metrics, outcome: Outcome, ds: seq<Delivery>): Metrics {
    match outcome
    case EchoFailed => m
    case Echoed => m.(routed := m.routed + 1)
    case Unreachable => m.(dropped := m.dropped + 1)
    case _ => Count(m, ds)
  }

  // ---------------------------------------------------------------- steps

  ghost predicate Enabled(c: Relay, s: Step) {
    && !c.crashed
    && match s
       case TableStep(_) => true
       case Arrive(j, source, data) => j !in c.jobs && Readable(source, data)
       case Lookup(j) => j in c.jobs && c.jobs[j].phase.Arrived? && |c.jobs[j].data| >= Wire.HEADER_SIZE
       case Admit(j, _) =>
         j in c.jobs && c.jobs[j].phase.Found? && c.jobs[j].phase.r in c.table.heap && |c.jobs[j].data| >= Wire.HEADER_SIZE
       case Route(j, order, _) =>
         && j in c.jobs && c.jobs[j].phase.Admitted? && c.jobs[j].phase.r in c.table.heap
         && |c.jobs[j].data| >= Wire.HEADER_SIZE
         && Walks(c.table.heap[c.jobs[j].phase.r].players, c.jobs[j].data, order)
  }

  function SetPhase(c: Relay, j: JobId, p: Phase): Relay
    requires j in c.jobs
  {
    c.(jobs := c.jobs[j := c.jobs[j].(phase := p)])
  }

  /** The deliveries a step makes. */
  ghost function NewSends(c: Relay, s: Step): seq<Delivery>
    requires Enabled(c, s)
  {
    match s
    case Route(j, order, failing) =>
      Sends(c.table.heap[c.jobs[j].phase.r].players, j, c.jobs[j].source, c.jobs[j].data, order, failing)
    case _ => []
  }

  ghost function AdmitVerdict(c: Relay, j: JobId, now: Time): Verdict
    requires Enabled(c, Admit(j, now))
  {
    Deliver(c.table, c.jobs[j].phase.r, SenderOf(c.jobs[j].data), c.jobs[j].source, now).1
  }

  ghost function Next(c: Relay, s: Step): (c': Relay)
    requires Linked(c.table) && Enabled(c, s)
    ensures Linked(c'.table)
  {
    match s
    case TableStep(e) => c.(table := SessionRuns.Step(c.table, e))
    case Arrive(j, source, data) =>
      if |data| < Wire.HEADER_SIZE then
        c.(jobs := c.jobs[j := Job(source, data, Done(TooShort))], metrics := c.metrics.(dropped := c.metrics.dropped + 1))
      else c.(jobs := c.jobs[j := Job(source, data, Arrived)])
    case Lookup(j) =>
      var sender := SenderOf(c.jobs[j].data);
      if sender in c.table.index && c.table.index[sender] in c.table.sessions then
        SetPhase(c, j, Found(c.table.sessions[c.table.index[sender]]))
      else SetPhase(c, j, Done(NoSession)).(metrics := c.metrics.(dropped := c.metrics.dropped + 1))
    case Admit(j, now) =>
      var job := c.jobs[j];
      var (table, verdict) := Deliver(c.table, job.phase.r, SenderOf(job.data), job.source, now);
      var d, m := c.(table := table), c.metrics;
      (match verdict
       case Spoofed => SetPhase(d, j, Done(SpoofedSource)).(metrics := m.(spoofed := m.spoofed + 1))
       case RateLimited => SetPhase(d, j, Done(OverRate)).(metrics := m.(rateLimited := m.rateLimited + 1))
       case Unknown => SetPhase(d, j, Done(NotMember)).(metrics := m.(dropped := m.dropped + 1))
       case _ => SetPhase(d, j, Admitted(job.phase.r)))
    case Route(j, order, failing) =>
      var ds := NewSends(c, s);
      var outcome := RouteOutcome(c.table.heap[c.jobs[j].phase.r].players, c.jobs[j].source, c.jobs[j].data, order, ds);
      SetPhase(c, j, Done(outcome)).(sent := c.sent + ds, metrics := CountRoute(c.metrics, outcome, ds),
                                     crashed := outcome.Crashed?)
  }

  /** A run is possible when every step is enabled where it happens. */
  ghost predicate Possible(ss: seq<Step>)
    decreases |ss|, 0
  {
    ss == [] || (Possible(ss[..|ss| - 1]) && Enabled(RelayAfter(ss[..|ss| - 1]), ss[|ss| - 1]))
  }

  ghost function RelayAfter(ss: seq<Step>): (c: Relay)
    requires Possible(ss)
    ensures Linked(c.table)
    decreases |ss|, 1
  {
    if ss == [] then START else Next(RelayAfter(ss[..|ss| - 1]), ss[|ss| - 1])
  }

  /** The last step of a run. */
  lemma LastStep(ss: seq<Step>)
    requires ss != [] && Possible(ss)
    ensures var n := |ss| - 1;
      && Possible(ss[..n]) && Enabled(RelayAfter(ss[..n]), ss[n])
      && RelayAfter(ss) == Next(RelayAfter(ss[..n]), ss[n])
  {
    hide Enabled, Next;
  }

  // ---------------------------------------------------------------- isolation

  /** At step `a` of the run the sender's packet was admitted by session object `r`, which then held the sender. */
  ghost predicate AdmittedAt(ss: seq<Step>, a: nat, j: JobId, job: Job, r: Ref) {
    && a < |ss| && ss[a].Admit? && ss[a].j == j
    && Possible(ss[..a]) && Enabled(RelayAfter(ss[..a]), ss[a])
    && var c := RelayAfter(ss[..a]);
    && c.jobs[j] == job.(phase := Found(r))
    && SenderOf(job.data) in c.table.heap[r].players
    && AdmitVerdict(c, j, ss[a].now).Passes()
  }

  /** At step `l` packet `j` was routed by session object `r`, and `d` is one of the attempts made there. */
  ghost predicate SentAt(ss: seq<Step>, l: nat, d: Delivery, job: Job, r: Ref) {
    && l < |ss| && ss[l].Route? && ss[l].j == d.job
    && Possible(ss[..l]) && Enabled(RelayAfter(ss[..l]), ss[l])
    && var c := RelayAfter(ss[..l]);
    && c.jobs[d.job] == job.(phase := Admitted(r))
    && d.data == job.data
    && if d.hello then d.dest == SenderOf(job.data) == DestOf(job.data) && d.target == job.source
       else
         && d.dest != SenderOf(job.data) && (DestOf(job.data) == Wire.BROADCAST != SenderOf(job.data) || d.dest == DestOf(job.data))
         && Fits(d.target, d.data)
         && d.dest in c.table.heap[r].players
         && Target(c.table.heap[r].players[d.dest]) == Some(d.target)
  }

  lemma JobsKeepTheirPacket(c: Relay, s: Step, j: JobId)
    requires Linked(c.table) && Enabled(c, s) && j in c.jobs
    ensures j in Next(c, s).jobs
    ensures Next(c, s).jobs[j] == c.jobs[j].(phase := Next(c, s).jobs[j].phase)
    ensures Next(c, s).jobs[j].phase != c.jobs[j].phase ==> !s.TableStep? && s.j == j && !s.Arrive?
  {
    hide Linked, Sends, CountRoute, Deliver, SessionRuns.Step;
  }

  lemma BecomesAdmitted(c: Relay, s: Step, j: JobId)
    requires Linked(c.table) && Enabled(c, s) && j in Next(c, s).jobs && Next(c, s).jobs[j].phase.Admitted?
    ensures j in c.jobs
    ensures c.jobs[j].phase.Admitted? ==> c.jobs[j] == Next(c, s).jobs[j]
    ensures !c.jobs[j].phase.Admitted? ==>
            && s.Admit? && s.j == j && c.jobs[j].phase == Found(Next(c, s).jobs[j].phase.r)
            && SenderOf(c.jobs[j].data) in c.table.heap[c.jobs[j].phase.r].players
            && AdmitVerdict(c, j, s.now).Passes()
  {
    hide Linked, Sends, CountRoute, SessionRuns.Step, Receive;
  }

  /** A packet being routed was admitted by the session object that now routes it. */
  lemma {:induction false} AdmissionHappened(ss: seq<Step>, j: JobId) returns (a: nat)
    requires Possible(ss) && j in RelayAfter(ss).jobs && RelayAfter(ss).jobs[j].phase.Admitted?
    ensures AdmittedAt(ss, a, j, RelayAfter(ss).jobs[j], RelayAfter(ss).jobs[j].phase.r)
    decreases |ss|
  {
    var n := |ss| - 1;
    var before := ss[..n];
    var c := RelayAfter(before);
    BecomesAdmitted(c, ss[n], j);
    if c.jobs[j].phase.Admitted? {
      a := AdmissionHappened(before, j);
      assert before[..a] == ss[..a];
      hide Enabled, Next, Possible, RelayAfter, AdmitVerdict;
    } else {
      a := n;
      JobsKeepTheirPacket(c, ss[n], j);
    }
  }

  lemma NewSendsAreSentHere(ss: seq<Step>, i: nat)
    requires ss != [] && Possible(ss)
    requires i < |NewSends(RelayAfter(ss[..|ss| - 1]), ss[|ss| - 1])|
    ensures var n := |ss| - 1;
      var c := RelayAfter(ss[..n]);
      var d := NewSends(c, ss[n])[i];
      ss[n].Route? && d.job == ss[n].j && SentAt(ss, n, d, c.jobs[d.job], c.jobs[d.job].phase.r)
  {
    hide Linked, CountRoute, RelayAfter, Next;
  }

  /**
   Isolation: every attempt carries its packet unchanged, to a player who was a member, when looked up, of the very session
   object that had admitted the sender; only a hello goes back to where it came from.
   */
  lemma {:induction false} Isolation(ss: seq<Step>, k: nat) returns (a: nat, l: nat, job: Job, r: Ref)
    requires Possible(ss) && k < |RelayAfter(ss).sent|
    ensures a < l && AdmittedAt(ss, a, RelayAfter(ss).sent[k].job, job, r) && SentAt(ss, l, RelayAfter(ss).sent[k], job, r)
    decreases |ss|
  {
    hide AdmittedAt, SentAt, Enabled, NewSends, Next, Possible, RelayAfter, Linked;
    SentSomething(ss);
    LastStep(ss);
    var n := |ss| - 1;
    var before := ss[..n];
    var c := RelayAfter(before);
    SentGrows(c, ss[n]);
    if k < |c.sent| {
      a, l, job, r := Isolation(before, k);
      StillAdmitted(ss, n, a, c.sent[k].job, job, r);
      StillSent(ss, n, l, c.sent[k], job, r);
    } else {
      a, job, r := SentNow(ss, k - |c.sent|);
      l := n;
    }
  }

  lemma SentSomething(ss: seq<Step>)
    requires Possible(ss) && RelayAfter(ss).sent != []
    ensures ss != []
  {
  }

  lemma SentNow(ss: seq<Step>, i: nat) returns (a: nat, job: Job, r: Ref)
    requires ss != [] && Possible(ss)
    requires i < |NewSends(RelayAfter(ss[..|ss| - 1]), ss[|ss| - 1])|
    ensures var n := |ss| - 1;
      var d := NewSends(RelayAfter(ss[..n]), ss[n])[i];
      a < n && AdmittedAt(ss, a, d.job, job, r) && SentAt(ss, n, d, job, r)
  {
    var n := |ss| - 1;
    var c := RelayAfter(ss[..n]);
    var d := NewSends(c, ss[n])[i];
    NewSendsAreSentHere(ss, i);
    job, r := c.jobs[d.job], c.jobs[d.job].phase.r;
    hide SentAt, NewSends, Next;
    a := AdmissionHappened(ss[..n], d.job);
    StillAdmitted(ss, n, a, d.job, job, r);
  }

  lemma StillAdmitted(ss: seq<Step>, n: nat, a: nat, j: JobId, job: Job, r: Ref)
    requires n <= |ss| && AdmittedAt(ss[..n], a, j, job, r)
    ensures a < n && AdmittedAt(ss, a, j, job, r)
  {
    assert ss[..n][..a] == ss[..a];
    hide RelayAfter, Possible, Enabled, AdmitVerdict;
  }

  lemma StillSent(ss: seq<Step>, n: nat, l: nat, d: Delivery, job: Job, r: Ref)
    requires n <= |ss| && SentAt(ss[..n], l, d, job, r)
    ensures SentAt(ss, l, d, job, r)
  {
    assert ss[..n][..l] == ss[..l];
    hide RelayAfter, Possible, Enabled;
  }

  lemma SentGrows(c: Relay, s: Step)
    requires Linked(c.table) && Enabled(c, s)
    ensures Next(c, s).sent == c.sent + NewSends(c, s)
  {
  }

  // ---------------------------------------------------------------- the crash

  /** Routing crashes exactly when the packet is too large for a TCP member it is to be handed to, whatever the order. */
  lemma RoutingCrashesIff(c: Relay, s: Step)
    requires Linked(c.table) && Enabled(c, s) && s.Route?
    ensures Next(c, s).crashed <==> TooLargeFor(c.table.heap[c.jobs[s.j].phase.r].players, c.jobs[s.j].data)
  {
    var players, data := c.table.heap[c.jobs[s.j].phase.r].players, c.jobs[s.j].data;
    StuckIff(players, data, s.order);
    hide Linked, CountRoute, Addressees;
  }

  lemma StuckIff(players: map<PlayerId, PlayerInfo>, data: seq<byte>, order: seq<PlayerId>)
    requires |data| >= Wire.HEADER_SIZE && Walks(players, data, order)
    ensures DestOf(data) == SenderOf(data) ==> Addressees(players, data) == {} && order == []
    ensures Stuck(players, data, order) <==> TooLargeFor(players, data)
  {
    if Stuck(players, data, order) {
      assert order[|order| - 1] in Addressees(players, data);
    } else if p :| p in Addressees(players, data) && Target(players[p]).value.TcpPeer? {
      var i :| 0 <= i < |order| && order[i] == p;
      assert Fits(Target(players[order[i]]).value, data);
    }
  }

  /** A relay has crashed exactly when the last thing it did was to route a packet too large for a TCP member it was for. */
  lemma CrashedIff(ss: seq<Step>)
    requires Possible(ss)
    ensures RelayAfter(ss).crashed <==>
            && ss != [] && ss[|ss| - 1].Route?
            && var c, j := RelayAfter(ss[..|ss| - 1]), ss[|ss| - 1].j;
            TooLargeFor(c.table.heap[c.jobs[j].phase.r].players, c.jobs[j].data)
  {
    if ss != [] {
      var c, s := RelayAfter(ss[..|ss| - 1]), ss[|ss| - 1];
      if s.Route? {
        RoutingCrashesIff(c, s);
      }
      hide Linked, TooLargeFor, Sends, CountRoute, RouteOutcome;
    }
  }

  // ---------------------------------------------------------------- one crash

  lemma Extend(ss: seq<Step>, s: Step)
    requires Possible(ss) && Enabled(RelayAfter(ss), s)
    ensures Possible(ss + [s]) && RelayAfter(ss + [s]) == Next(RelayAfter(ss), s)
  {
    assert (ss + [s])[..|ss|] == ss;
    hide Enabled, Next;
  }
}
