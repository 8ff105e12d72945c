/** The relay's router in its own form: counters bumped in place, one send attempt after another. */
module Router {
  import opened Bytes
  import opened PlayerTransport
  import opened SessionTable
  import opened SessionManager
  import opened Routing
  import opened RoutingAccounts
  import Wire = RelayWire

  lemma {:induction false} CountAppend(m: Metrics, ds: seq<Delivery>, d: Delivery)
    ensures Count(m, ds + [d]) == Count(Count(m, ds), [d])
  {
  }

  lemma SendAllAppend(players: map<PlayerId, PlayerInfo>, j: JobId, data: seq<byte>, order: seq<PlayerId>,
                      failing: set<PlayerId>, p: PlayerId, ok: bool)
    requires forall i :: 0 <= i < |order| ==> order[i] in players && Target(players[order[i]]).Some?
    requires p in players && p !in order && Target(players[p]).Some?
    ensures SendAll(players, j, data, order + [p], failing - {p} + if ok then {} else {p}) ==
            SendAll(players, j, data, order, failing) + [Delivery(j, p, Target(players[p]).value, data, ok, false)]
  {
  }

  /** What stands on the wire for an attempt: the bare packet, or a TCP frame. */
  function Written(d: Delivery): Wire.Datagram
    requires |d.data| < 0x1_0000
  {
    Wire.OnWire(d.target.TcpPeer?, d.data)
  }

  class Router {
    var routed: nat
    var dropped: nat
    var spoofed: nat
    var rateLimited: nat
    var bytes: nat
    var crashed: bool
    var sent: seq<Delivery>
    var wire: seq<Wire.Datagram>

    function Counters(): Metrics
      reads this
    {
      Metrics(routed, dropped, spoofed, rateLimited, bytes)
    }

    /** Every attempt has put its packet on the wire, unchanged. */
    ghost predicate Valid()
      reads this
    {
      |wire| == |sent| && forall i :: 0 <= i < |sent| ==> |sent[i].data| < 0x1_0000 && wire[i] == Written(sent[i])
    }

    constructor ()
      ensures Valid() && Counters() == Metrics(0, 0, 0, 0, 0) && sent == [] && !crashed
    {
      routed, dropped, spoofed, rateLimited, bytes, sent := 0, 0, 0, 0, 0, [];
      wire, crashed := [], false;
    }

    /** The socket write, in a buffer from the pool for TCP; whether it succeeds is not up to the router. */
    method Transmit(j: JobId, dest: PlayerId, target: Endpoint, data: seq<byte>, hello: bool) returns (ok: bool)
      requires Valid() && Fits(target, data) && |data| <= Wire.RECEIVE_BUFFER
      modifies this`sent, this`wire
      ensures Valid() && sent == old(sent) + [Delivery(j, dest, target, data, ok, hello)]
    {
      var bytes := data;
      if target.TcpPeer? {
        var pooled := new byte[2 + Wire.MAX_PACKET];
        bytes := Wire.WriteTcpFrame(pooled, data);
      }
      ok := *;
      sent := sent + [Delivery(j, dest, target, data, ok, hello)];
      wire := wire + [if target.TcpPeer? then Wire.Tcp(bytes) else Wire.Udp(bytes)];
    }

    /** One attempt to a looked-up target, and its account; the relay crashes if the packet does not fit. */
    method SendTo(j: JobId, dest: PlayerId, target: Endpoint, data: seq<byte>) returns (ok: bool)
      requires Valid() && !crashed && |data| <= Wire.RECEIVE_BUFFER
      modifies this
      ensures Valid() && crashed == !Fits(target, data)
      ensures crashed ==> sent == old(sent) && Counters() == old(Counters())
      ensures !crashed ==> sent == old(sent) + [Delivery(j, dest, target, data, ok, false)]
      ensures !crashed ==> Counters() == Count(old(Counters()), [Delivery(j, dest, target, data, ok, false)])
    {
      if !Fits(target, data) {
        crashed := true;
        return false;
      }
      ok := Transmit(j, dest, target, data, false);
      ghost var d := Delivery(j, dest, target, data, ok, false);
      assert [d][..0] == [];
      if ok {
        routed := routed + 1;
        bytes := bytes + |data|;
      } else {
        dropped := dropped + 1;
      }
    }

    /** To one member of the session, or dropped. */
    method SendUnicast(s: SessionObject, j: JobId, data: seq<byte>)
      returns (outcome: Outcome, ghost order: seq<PlayerId>, ghost failing: set<PlayerId>)
      requires Valid() && !crashed && Wire.HEADER_SIZE <= |data| <= Wire.RECEIVE_BUFFER
      requires DestOf(data) != SenderOf(data) && DestOf(data) != Wire.BROADCAST
      modifies this
      ensures Valid() && Walks(s.players, data, order) && crashed == Stuck(s.players, data, order)
      ensures var ds := SendAll(s.players, j, data, Attempted(s.players, data, order), failing);
              sent == old(sent) + ds &&
              Counters() == CountRoute(old(Counters()), outcome, ds) &&
              outcome == if crashed then Crashed(|ds|) else if ds == [] then Unreachable else Unicast
    {
      var dest := DestOf(data);
      order, failing := [], {};
      if dest !in s.players || Target(s.players[dest]).None? {
        dropped := dropped + 1;
        return Unreachable, order, failing;
      }
      var ok := SendTo(j, dest, Target(s.players[dest]).value, data);
      outcome := if crashed then Crashed(0) else Unicast;
      order, failing := [dest], if ok then {} else {dest};
      assert SendAll(s.players, j, data, [dest], failing) ==
             [Delivery(j, dest, Target(s.players[dest]).value, data, ok, false)];
    }

    /** To every other member that can be reached, in whatever order the session yields them. */
    method SendBroadcast(s: SessionObject, j: JobId, data: seq<byte>)
      returns (attempts: nat, ghost order: seq<PlayerId>, ghost failing: set<PlayerId>)
      requires Valid() && !crashed && Wire.HEADER_SIZE <= |data| <= Wire.RECEIVE_BUFFER
      requires DestOf(data) == Wire.BROADCAST != SenderOf(data)
      modifies this
      ensures Valid() && Walks(s.players, data, order) && crashed == Stuck(s.players, data, order)
      ensures var ds := SendAll(s.players, j, data, Attempted(s.players, data, order), failing);
              attempts == |ds| && sent == old(sent) + ds && Counters() == Count(old(Counters()), ds)
    {
      var sender := SenderOf(data);
      attempts, order, failing := 0, [], {};
      ghost var all := Addressees(s.players, data);
      var todo := s.players.Keys;
      while todo != {}
        invariant todo <= s.players.Keys
        invariant Valid() && !crashed && attempts == |order|
        invariant Enumerates(order, all - todo) && AllFit(s.players, data, order)
        invariant sent == old(sent) + SendAll(s.players, j, data, order, failing)
        invariant Counters() == Count(old(Counters()), SendAll(s.players, j, data, order, failing))
        decreases todo
      {
        var p :| p in todo;
        if p != sender && Target(s.players[p]).Some? {
          EnumerateNext(order, all, todo, p);
          ghost var before := SendAll(s.players, j, data, order, failing);
          var ok := SendTo(j, p, Target(s.players[p]).value, data);
          if crashed {
            StuckAt(s.players, data, order, p);
            order := order + [p];
            return;
          }
          SendAllAppend(s.players, j, data, order, failing, p, ok);
          CountAppend(old(Counters()), before, Delivery(j, p, Target(s.players[p]).value, data, ok, false));
          attempts, order, failing := attempts + 1, order + [p], failing - {p} + if ok then {} else {p};
        } else {
          assert all - todo == all - (todo - {p});
        }
        todo := todo - {p};
      }
      assert all - {} == all;
      WalkedAll(s.players, data, order);
    }

    /** Routing of an admitted packet: a hello is echoed to its source, the rest goes to the session's members. */
    method RoutePacket(s: SessionObject, j: JobId, source: Endpoint, data: seq<byte>)
      returns (outcome: Outcome, ghost order: seq<PlayerId>, ghost failing: set<PlayerId>)
      requires Valid() && !crashed && |data| >= Wire.HEADER_SIZE && Readable(source, data)
      modifies this
      ensures Valid() && Walks(s.players, data, order) && crashed == outcome.Crashed?
      ensures var ds := Sends(s.players, j, source, data, order, failing);
              && sent == old(sent) + ds
              && outcome == RouteOutcome(s.players, source, data, order, ds)
              && Counters() == CountRoute(old(Counters()), outcome, ds)
    {
      var sender, dest := SenderOf(data), DestOf(data);
      order, failing := [], {};
      if dest == sender {
        var ok := Transmit(j, sender, source, data, true);
        failing := if ok then {} else {sender};
        if source.TcpPeer? && !ok {
          return EchoFailed, order, failing;
        }
        routed := routed + 1;
        outcome := Echoed;
      } else if dest == Wire.BROADCAST {
        var attempts;
        attempts, order, failing := SendBroadcast(s, j, data);
        outcome := if crashed then Crashed(attempts) else Broadcast(attempts);
      } else {
        outcome, order, failing := SendUnicast(s, j, data);
      }
    }

    /**
     One datagram or one frame from start to end, without interference: the four steps of the packet, one after another,
     as far as they go. Whatever becomes of it, the counters grow by its weight.
     */
    method HandlePacket(sm: Manager, j: JobId, source: Endpoint, data: seq<byte>, now: Time)
      returns (outcome: Outcome, ghost order: seq<PlayerId>, ghost failing: set<PlayerId>)
      requires sm.Valid() && Valid() && !crashed && Readable(source, data)
      modifies this, sm.objects.Values
      ensures sm.Valid() && Valid()
      ensures Handles(Relay(old(sm.View()), map[], old(sent), old(Counters()), false), j, source, data, now, order, failing,
                      Relay(sm.View(), map[j := Job(source, data, Done(outcome))], sent, Counters(), crashed))
      ensures Counters().Total() == old(Counters().Total()) + Weight(Job(source, data, Done(outcome)))
    {
      hide Handles, Linked, Manager.View, Manager.Valid, Router.Counters, CountRoute, Sends, RouteOutcome, Weight;
      order, failing := [], {};
      ghost var t, sent0, m := sm.View(), sent, Counters();
      if |data| < Wire.HEADER_SIZE {
        Drop();
        ShortIsHandled(t, sent0, m, j, source, data, now);
        return TooShort, order, failing;
      }
      var sender := SenderOf(data);
      var s := sm.FindSessionByPlayer(sender);
      sm.FoundIn(sender);
      if s == null {
        Drop();
        UnknownIsHandled(t, sent0, m, j, source, data, now);
        return NoSession, order, failing;
      }
      outcome, order, failing := HandleFound(sm, s, j, source, data, now);
    }

    /** The packet of a player whose session has been found. */
    method HandleFound(sm: Manager, s: SessionObject, j: JobId, source: Endpoint, data: seq<byte>, now: Time)
      returns (outcome: Outcome, ghost order: seq<PlayerId>, ghost failing: set<PlayerId>)
      requires sm.Valid() && Valid() && !crashed && |data| >= Wire.HEADER_SIZE && Readable(source, data)
      requires SenderOf(data) in sm.playerIndex && sm.playerIndex[SenderOf(data)] in sm.sessions
      requires s == sm.sessions[sm.playerIndex[SenderOf(data)]] && s.ref in sm.objects && sm.objects[s.ref] == s
      modifies this, s
      ensures sm.Valid() && Valid()
      ensures Handles(Relay(old(sm.View()), map[], old(sent), old(Counters()), false), j, source, data, now, order, failing,
                      Relay(sm.View(), map[j := Job(source, data, Done(outcome))], sent, Counters(), crashed))
      ensures Counters().Total() == old(Counters().Total()) + Weight(Job(source, data, Done(outcome)))
    {
      hide Handles, Linked, Manager.View, Manager.Valid, Router.Counters, CountRoute, Sends, RouteOutcome, Weight;
      ghost var t, sent0, m := sm.View(), sent, Counters();
      sm.FoundIn(SenderOf(data));
      var verdict := AdmitPacket(sm, s, SenderOf(data), source, now);
      ghost var t' := sm.View();
      outcome, order, failing := Settle(s, j, source, data, verdict);
      SettledIsHandled(t, s.ref, t', verdict, sent0, m, j, source, data, now, order, failing, outcome, sent, Counters());
    }

    method Drop()
      modifies this`dropped
      ensures Counters() == old(Counters()).(dropped := old(Counters()).dropped + 1)
    {
      dropped := dropped + 1;
    }

    /** The packet meets its sender's record in the session object. */
    method AdmitPacket(sm: Manager, s: SessionObject, sender: PlayerId, source: Endpoint, now: Time) returns (verdict: Verdict)
      requires sm.Valid() && s.ref in sm.objects && sm.objects[s.ref] == s
      modifies s
      ensures sm.Valid() && s.ref in old(sm.View()).heap
      ensures (sm.View(), verdict) == Deliver(old(sm.View()), s.ref, sender, source, now)
      ensures sm.View().heap[s.ref].players == s.players
    {
      hide Linked, Receive;
      ghost var heap := sm.Heap();
      verdict := UpdateSender(s, sender, source, now);
      sm.HeapUpdate(s);
      assert s.players == old(s.players) ==> sm.Heap() == heap;
      assert s.Value() == heap[s.ref].(players := s.players);
    }

    method UpdateSender(s: SessionObject, sender: PlayerId, source: Endpoint, now: Time) returns (verdict: Verdict)
      modifies s
      ensures sender !in old(s.players) ==> verdict == Unknown && s.players == old(s.players)
      ensures sender in old(s.players) ==>
              var (p, v) := Receive(old(s.players)[sender], source, now);
              verdict == v && s.players == old(s.players)[sender := p]
    {
      match source {
        case UdpPeer(addr) => verdict := s.UpdatePlayerAddr(sender, addr, now);
        case TcpPeer(conn) =>
          var replaced;
          verdict, replaced := s.UpdatePlayerTcp(sender, conn, now);
      }
    }

    /** A refused packet is counted, an admitted one routed. */
    method Settle(s: SessionObject, j: JobId, source: Endpoint, data: seq<byte>, verdict: Verdict)
      returns (outcome: Outcome, ghost order: seq<PlayerId>, ghost failing: set<PlayerId>)
      requires Valid() && !crashed && |data| >= Wire.HEADER_SIZE && Readable(source, data)
      modifies this
      ensures Valid() && crashed == outcome.Crashed?
      ensures SettledAs(s.players, verdict, j, source, data, order, failing, old(sent), old(Counters()),
                        outcome, sent, Counters())
    {
      order, failing := [], {};
      match verdict {
        case Spoofed =>
          spoofed := spoofed + 1;
          outcome := SpoofedSource;
        case RateLimited =>
          rateLimited := rateLimited + 1;
          outcome := OverRate;
        case Unknown =>
          dropped := dropped + 1;
          outcome := NotMember;
        case _ =>
          outcome, order, failing := RoutePacket(s, j, source, data);
          hide Sends, CountRoute, RouteOutcome;
      }
    }
  }

  /** What an accepted or refused packet does to the sends and the counters. */
  ghost predicate SettledAs(players: map<PlayerId, PlayerInfo>, verdict: Verdict, j: JobId, source: Endpoint,
                            data: seq<byte>, order: seq<PlayerId>, failing: set<PlayerId>, sent: seq<Delivery>, m: Metrics,
                            outcome: Outcome, sent': seq<Delivery>, m': Metrics)
    requires |data| >= Wire.HEADER_SIZE
  {
    match verdict
    case Spoofed => outcome == SpoofedSource && sent' == sent && m' == m.(spoofed := m.spoofed + 1)
    case RateLimited => outcome == OverRate && sent' == sent && m' == m.(rateLimited := m.rateLimited + 1)
    case Unknown => outcome == NotMember && sent' == sent && m' == m.(dropped := m.dropped + 1)
    case _ =>
      && Walks(players, data, order)
      && var ds := Sends(players, j, source, data, order, failing);
      && outcome == RouteOutcome(players, source, data, order, ds) && sent' == sent + ds && m' == CountRoute(m, outcome, ds)
  }

  /** `c'` is `c` after the steps of packet `j`, taken one after another until it is done. */
  ghost predicate Handles(c: Relay, j: JobId, source: Endpoint, data: seq<byte>, now: Time, order: seq<PlayerId>,
                          failing: set<PlayerId>, c': Relay)
    requires Linked(c.table) && Enabled(c, Arrive(j, source, data))
  {
    var arrived := Next(c, Arrive(j, source, data));
    if arrived.jobs[j].phase.Done? then c' == arrived
    else
      var found := Next(arrived, Lookup(j));
      if found.jobs[j].phase.Done? then c' == found
      else
        && Enabled(found, Admit(j, now))
        && var admitted := Next(found, Admit(j, now));
        if admitted.jobs[j].phase.Done? then c' == admitted
        else Enabled(admitted, Route(j, order, failing)) && c' == Next(admitted, Route(j, order, failing))
  }

  lemma ShortIsHandled(t: Table, sent: seq<Delivery>, m: Metrics, j: JobId, source: Endpoint, data: seq<byte>, now: Time)
    requires Linked(t) && |data| < Wire.HEADER_SIZE && Readable(source, data)
    ensures Handles(Relay(t, map[], sent, m, false), j, source, data, now, [], {},
                    Relay(t, map[j := Job(source, data, Done(TooShort))], sent, m.(dropped := m.dropped + 1), false))
    ensures Weight(Job(source, data, Done(TooShort))) == 1
  {
  }

  lemma UnknownIsHandled(t: Table, sent: seq<Delivery>, m: Metrics, j: JobId, source: Endpoint, data: seq<byte>, now: Time)
    requires Linked(t) && |data| >= Wire.HEADER_SIZE && Readable(source, data)
    requires !(SenderOf(data) in t.index && t.index[SenderOf(data)] in t.sessions)
    ensures Handles(Relay(t, map[], sent, m, false), j, source, data, now, [], {},
                    Relay(t, map[j := Job(source, data, Done(NoSession))], sent, m.(dropped := m.dropped + 1), false))
    ensures Weight(Job(source, data, Done(NoSession))) == 1
  {
    hide Linked;
    var done: map<JobId, Job> := map[j := Job(source, data, Done(NoSession))];
    assert done == map[j := Job(source, data, Arrived)][j := Job(source, data, Done(NoSession))];
  }

  /** The relay after the first two steps of a packet, and the job it then holds. */
  lemma FoundAfterLookup(c: Relay, r: Ref, j: JobId, source: Endpoint, data: seq<byte>)
    requires Linked(c.table) && c.jobs == map[] && !c.crashed && |data| >= Wire.HEADER_SIZE && Readable(source, data)
    requires SenderOf(data) in c.table.index && c.table.index[SenderOf(data)] in c.table.sessions
    requires c.table.sessions[c.table.index[SenderOf(data)]] == r
    ensures var arrived := Next(c, Arrive(j, source, data));
      && Enabled(arrived, Lookup(j)) && arrived.jobs[j].phase == Arrived
      && Next(arrived, Lookup(j)) == c.(jobs := map[j := Job(source, data, Found(r))])
  {
  }

  lemma RefusedIsHandled(t: Table, r: Ref, t': Table, verdict: Verdict, sent: seq<Delivery>, m: Metrics, j: JobId,
                         source: Endpoint, data: seq<byte>, now: Time, order: seq<PlayerId>, failing: set<PlayerId>,
                         outcome: Outcome, sent': seq<Delivery>, m': Metrics)
    requires Linked(t) && |data| >= Wire.HEADER_SIZE && Readable(source, data)
    requires SenderOf(data) in t.index && t.index[SenderOf(data)] in t.sessions && t.sessions[t.index[SenderOf(data)]] == r
    requires r in t.heap && (t', verdict) == Deliver(t, r, SenderOf(data), source, now) && r in t'.heap
    requires SettledAs(t'.heap[r].players, verdict, j, source, data, order, failing, sent, m, outcome, sent', m')
    requires !verdict.Passes()
    ensures Handles(Relay(t, map[], sent, m, false), j, source, data, now, order, failing,
                    Relay(t', map[j := Job(source, data, Done(outcome))], sent', m', outcome.Crashed?))
  {
    FoundAfterLookup(Relay(t, map[], sent, m, false), r, j, source, data);
    hide Linked, Receive, Sends, RouteOutcome, CountRoute;
    var found: map<JobId, Job> := map[j := Job(source, data, Found(r))];
    assert map[j := Job(source, data, Done(outcome))] == found[j := Job(source, data, Done(outcome))];
  }

  lemma RoutedIsHandled(t: Table, r: Ref, t': Table, verdict: Verdict, sent: seq<Delivery>, m: Metrics, j: JobId,
                        source: Endpoint, data: seq<byte>, now: Time, order: seq<PlayerId>, failing: set<PlayerId>,
                        outcome: Outcome, sent': seq<Delivery>, m': Metrics)
    requires Linked(t) && |data| >= Wire.HEADER_SIZE && Readable(source, data)
    requires SenderOf(data) in t.index && t.index[SenderOf(data)] in t.sessions && t.sessions[t.index[SenderOf(data)]] == r
    requires r in t.heap && (t', verdict) == Deliver(t, r, SenderOf(data), source, now) && r in t'.heap
    requires SettledAs(t'.heap[r].players, verdict, j, source, data, order, failing, sent, m, outcome, sent', m')
    requires verdict.Passes()
    ensures Handles(Relay(t, map[], sent, m, false), j, source, data, now, order, failing,
                    Relay(t', map[j := Job(source, data, Done(outcome))], sent', m', outcome.Crashed?))
  {
    var c := Relay(t, map[], sent, m, false);
    FoundAfterLookup(c, r, j, source, data);
    AdmittedAfterFound(c.(jobs := map[j := Job(source, data, Found(r))]), r, t', verdict, j, source, data, now);
    var d := Relay(t', map[j := Job(source, data, Admitted(r))], sent, m, false);
    DoneAfterRouting(d, r, j, source, data, order, failing, outcome, sent', m');
    hide Linked, Next, Enabled, Sends, RouteOutcome, CountRoute, Walks;
  }

  lemma AdmittedAfterFound(c: Relay, r: Ref, t': Table, verdict: Verdict, j: JobId, source: Endpoint, data: seq<byte>, now: Time)
    requires Linked(c.table) && !c.crashed && r in c.table.heap && |data| >= Wire.HEADER_SIZE
    requires c.jobs == map[j := Job(source, data, Found(r))]
    requires (t', verdict) == Deliver(c.table, r, SenderOf(data), source, now) && verdict.Passes()
    ensures Enabled(c, Admit(j, now))
    ensures Next(c, Admit(j, now)) == c.(table := t', jobs := map[j := Job(source, data, Admitted(r))])
  {
    hide Linked, Deliver;
    assert c.jobs[j := Job(source, data, Admitted(r))] == map[j := Job(source, data, Admitted(r))];
  }

  lemma DoneAfterRouting(c: Relay, r: Ref, j: JobId, source: Endpoint, data: seq<byte>, order: seq<PlayerId>,
                         failing: set<PlayerId>, outcome: Outcome, sent': seq<Delivery>, m': Metrics)
    requires Linked(c.table) && !c.crashed && r in c.table.heap && |data| >= Wire.HEADER_SIZE
    requires c.jobs == map[j := Job(source, data, Admitted(r))] && Walks(c.table.heap[r].players, data, order)
    requires var ds := Sends(c.table.heap[r].players, j, source, data, order, failing);
      && outcome == RouteOutcome(c.table.heap[r].players, source, data, order, ds)
      && sent' == c.sent + ds && m' == CountRoute(c.metrics, outcome, ds)
    ensures Enabled(c, Route(j, order, failing))
    ensures Next(c, Route(j, order, failing)) ==
            Relay(c.table, map[j := Job(source, data, Done(outcome))], sent', m', outcome.Crashed?)
  {
    hide Linked, Sends, RouteOutcome, CountRoute, Walks;
    assert c.jobs[j := Job(source, data, Done(outcome))] == map[j := Job(source, data, Done(outcome))];
  }

  lemma SettledIsHandled(t: Table, r: Ref, t': Table, verdict: Verdict, sent: seq<Delivery>, m: Metrics, j: JobId,
                         source: Endpoint, data: seq<byte>, now: Time, order: seq<PlayerId>, failing: set<PlayerId>,
                         outcome: Outcome, sent': seq<Delivery>, m': Metrics)
    requires Linked(t) && |data| >= Wire.HEADER_SIZE && Readable(source, data)
    requires SenderOf(data) in t.index && t.index[SenderOf(data)] in t.sessions && t.sessions[t.index[SenderOf(data)]] == r
    requires r in t.heap && (t', verdict) == Deliver(t, r, SenderOf(data), source, now) && r in t'.heap
    requires SettledAs(t'.heap[r].players, verdict, j, source, data, order, failing, sent, m, outcome, sent', m')
    ensures Handles(Relay(t, map[], sent, m, false), j, source, data, now, order, failing,
                    Relay(t', map[j := Job(source, data, Done(outcome))], sent', m', outcome.Crashed?))
    ensures m'.Total() == m.Total() + Weight(Job(source, data, Done(outcome)))
  {
    if verdict.Passes() {
      RoutedWeight(m, t'.heap[r].players, j, source, data, order, failing);
    }
    hide Linked, Receive, Sends, RouteOutcome, CountRoute, Handles;
    if verdict.Passes() {
      RoutedIsHandled(t, r, t', verdict, sent, m, j, source, data, now, order, failing, outcome, sent', m');
    } else {
      RefusedIsHandled(t, r, t', verdict, sent, m, j, source, data, now, order, failing, outcome, sent', m');
    }
  }

  ghost predicate AllFit(players: map<PlayerId, PlayerInfo>, data: seq<byte>, order: seq<PlayerId>) {
    forall i :: 0 <= i < |order| ==>
      order[i] in players && Target(players[order[i]]).Some? && Fits(Target(players[order[i]]).value, data)
  }

  lemma WalkedAll(players: map<PlayerId, PlayerInfo>, data: seq<byte>, order: seq<PlayerId>)
    requires |data| >= Wire.HEADER_SIZE && Enumerates(order, Addressees(players, data)) && AllFit(players, data, order)
    ensures Walks(players, data, order) && !Stuck(players, data, order)
  {
  }

  lemma StuckAt(players: map<PlayerId, PlayerInfo>, data: seq<byte>, order: seq<PlayerId>, p: PlayerId)
    requires |data| >= Wire.HEADER_SIZE && AllFit(players, data, order)
    requires forall i :: 0 <= i < |order| ==> order[i] in Addressees(players, data) && order[i] != p
    requires forall i, j :: 0 <= i < j < |order| ==> order[i] != order[j]
    requires p in Addressees(players, data) && !Fits(Target(players[p]).value, data)
    ensures Walks(players, data, order + [p]) && Stuck(players, data, order + [p])
    ensures Attempted(players, data, order + [p]) == order
  {
    assert (order + [p])[..|order|] == order;
  }

  lemma EnumerateNext(order: seq<PlayerId>, all: set<PlayerId>, todo: set<PlayerId>, p: PlayerId)
    requires Enumerates(order, all - todo) && p in all && p in todo
    ensures p !in order
    ensures Enumerates(order + [p], all - (todo - {p}))
  {
  }
}
