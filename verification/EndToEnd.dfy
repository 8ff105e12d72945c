/** From one adapter through the relay to another: what is sent, read, routed, written and received. */
module EndToEnd {
  import opened Bytes
  import opened PlayerTransport
  import opened SessionTable
  import opened Routing
  import opened RoutingAccounts
  import Wire = RelayWire

  /** Every packet under way or done is one that a reader could hand over. */
  lemma {:induction false} JobsAreReadable(ss: seq<Step>, j: JobId)
    requires Possible(ss) && j in RelayAfter(ss).jobs
    ensures Readable(RelayAfter(ss).jobs[j].source, RelayAfter(ss).jobs[j].data)
    decreases |ss|
  {
    if ss != [] {
      LastStep(ss);
      hide Next, Enabled, Linked, Readable, Possible, RelayAfter;
      var c, s := RelayAfter(ss[..|ss| - 1]), ss[|ss| - 1];
      if j in c.jobs {
        JobsAreReadable(ss[..|ss| - 1], j);
        JobsKeepTheirPacket(c, s, j);
      } else {
        NewJobArrives(c, s, j);
      }
    }
  }

  lemma NewJobArrives(c: Relay, s: Step, j: JobId)
    requires Linked(c.table) && Enabled(c, s) && j !in c.jobs && j in Next(c, s).jobs
    ensures s.Arrive? && s.j == j && Next(c, s).jobs[j].source == s.source && Next(c, s).jobs[j].data == s.data
    ensures Readable(s.source, s.data)
  {
    hide Linked, Sends, CountRoute, Deliver, SessionRuns.Step;
  }

  lemma {:induction false} PacketStays(ss: seq<Step>, a: nat)
    requires Possible(ss) && a < |ss| && ss[a].Arrive?
    ensures ss[a].j in RelayAfter(ss).jobs
    ensures RelayAfter(ss).jobs[ss[a].j].source == ss[a].source && RelayAfter(ss).jobs[ss[a].j].data == ss[a].data
    decreases |ss|
  {
    hide Next, Enabled, Linked, Possible, RelayAfter;
    LastStep(ss);
    var n := |ss| - 1;
    var c := RelayAfter(ss[..n]);
    if a == n {
      ArrivalIsKept(c, ss[n]);
    } else {
      PacketStays(ss[..n], a);
      JobsKeepTheirPacket(c, ss[n], ss[a].j);
    }
  }

  lemma ArrivalIsKept(c: Relay, s: Step)
    requires Linked(c.table) && Enabled(c, s) && s.Arrive?
    ensures s.j in Next(c, s).jobs && Next(c, s).jobs[s.j].source == s.source && Next(c, s).jobs[s.j].data == s.data
  {
  }

  /** In every run, no attempt carries more than its receiver's buffer holds, or than a TCP frame may hold. */
  lemma AttemptsFit(ss: seq<Step>, k: nat)
    requires Possible(ss) && k < |RelayAfter(ss).sent|
    ensures var d := RelayAfter(ss).sent[k];
      && Wire.HEADER_SIZE <= |d.data| <= Wire.RECEIVE_BUFFER && Fits(d.target, d.data)
      && (d.hello ==> d.dest == SenderOf(d.data)) && (!d.hello ==> d.dest != SenderOf(d.data))
  {
    var a, l, job, r := Isolation(ss, k);
    JobsAreReadable(ss[..l], RelayAfter(ss).sent[k].job);
    hide Possible, RelayAfter, AdmittedAt, Linked;
  }

  /** In every run, the adapter of the player an attempt is for dispatches the packet's sender and payload; a hello comes back as a pong. */
  lemma EveryAttemptIsUnderstood(ss: seq<Step>, k: nat)
    requires Possible(ss) && k < |RelayAfter(ss).sent|
    ensures var d := RelayAfter(ss).sent[k];
      && Wire.HEADER_SIZE <= |d.data| <= Wire.RECEIVE_BUFFER
      && Wire.AdapterReceives(d.dest, Wire.OnWire(d.target.TcpPeer?, d.data)) ==
         if d.hello then Wire.Pong else Wire.ToPeer(SenderOf(d.data), d.data[Wire.HEADER_SIZE..])
  {
    AttemptsFit(ss, k);
    var d := RelayAfter(ss).sent[k];
    Wire.WrittenIsDispatched(d.dest, d.target.TcpPeer?, d.data);
    hide Possible, RelayAfter;
  }

  /** At step `a` the relay read what an adapter with the id and over the transport of `p` and its source had put on the wire. */
  ghost predicate ReadAt(ss: seq<Step>, a: nat, p: Wire.Packet) {
    && a < |ss| && ss[a].Arrive? && |p.payload| <= Wire.MAX_PAYLOAD
    && Wire.RelayReads(Wire.OnWire(ss[a].source.TcpPeer?, Wire.PacketBytes(p))) == Some(ss[a].data)
  }

  lemma ReadsThePacket(ss: seq<Step>, a: nat, p: Wire.Packet)
    requires ReadAt(ss, a, p)
    ensures var data := ss[a].data;
      && |data| == Wire.HEADER_SIZE + |p.payload| && SenderOf(data) == p.sender && DestOf(data) == p.dest
      && data[Wire.HEADER_SIZE..] == p.payload && Readable(ss[a].source, data)
  {
    Wire.SentIsRead(p, ss[a].source.TcpPeer?);
  }

  /**
   From adapter to adapter: whatever is attempted for a packet, in any run and over any two transports, makes its receiver
   dispatch the sender's id and payload; and only the player it was sent to receives it, unless it is a broadcast.
   */
  lemma SameSenderAndPayload(ss: seq<Step>, a: nat, p: Wire.Packet, k: nat)
    requires Possible(ss) && ReadAt(ss, a, p)
    requires k < |RelayAfter(ss).sent| && RelayAfter(ss).sent[k].job == ss[a].j
    ensures var d := RelayAfter(ss).sent[k];
      && Wire.HEADER_SIZE <= |d.data| <= Wire.RECEIVE_BUFFER
      && Wire.AdapterReceives(d.dest, Wire.OnWire(d.target.TcpPeer?, d.data)) ==
         (if p.dest == p.sender then Wire.Pong else Wire.ToPeer(p.sender, p.payload))
      && (p.dest != Wire.BROADCAST ==> d.dest == p.dest)
  {
    ReadsThePacket(ss, a, p);
    EveryAttemptIsUnderstood(ss, k);
    AttemptOfPacket(ss, a, k);
    hide Possible, RelayAfter, ReadAt;
  }

  lemma AttemptOfPacket(ss: seq<Step>, a: nat, k: nat)
    requires Possible(ss) && a < |ss| && ss[a].Arrive?
    requires k < |RelayAfter(ss).sent| && RelayAfter(ss).sent[k].job == ss[a].j
    ensures var d := RelayAfter(ss).sent[k];
      && d.data == ss[a].data && |d.data| >= Wire.HEADER_SIZE
      && (d.hello <==> DestOf(d.data) == SenderOf(d.data))
      && (DestOf(d.data) == Wire.BROADCAST != SenderOf(d.data) || d.dest == DestOf(d.data))
  {
    var i, l, job, r := Isolation(ss, k);
    hide Possible, RelayAfter, AdmittedAt, Linked, SentAt;
    SentShape(ss, l, RelayAfter(ss).sent[k], job, r);
    PacketStays(ss, a);
    StaysTheSame(ss, l, ss[a].j);
  }

  lemma SentShape(ss: seq<Step>, l: nat, d: Delivery, job: Job, r: Ref)
    requires SentAt(ss, l, d, job, r)
    ensures l < |ss| && Possible(ss[..l]) && d.job in RelayAfter(ss[..l]).jobs
    ensures d.data == RelayAfter(ss[..l]).jobs[d.job].data && |d.data| >= Wire.HEADER_SIZE
    ensures d.hello <==> DestOf(d.data) == SenderOf(d.data)
    ensures DestOf(d.data) == Wire.BROADCAST != SenderOf(d.data) || d.dest == DestOf(d.data)
  {
    hide Possible, RelayAfter, Linked;
  }

  lemma {:induction false} StaysTheSame(ss: seq<Step>, l: nat, j: JobId)
    requires Possible(ss) && l <= |ss| && Possible(ss[..l]) && j in RelayAfter(ss[..l]).jobs
    ensures j in RelayAfter(ss).jobs && RelayAfter(ss).jobs[j].data == RelayAfter(ss[..l]).jobs[j].data
    decreases |ss|
  {
    var n := |ss| - 1;
    if l == |ss| {
      assert ss[..l] == ss;
    } else {
      hide Next, Enabled, Linked, Possible, RelayAfter;
      LastStep(ss);
      assert ss[..n][..l] == ss[..l];
      StaysTheSame(ss[..n], l, j);
      JobsKeepTheirPacket(RelayAfter(ss[..n]), ss[n], j);
    }
  }

  /** A packet for one other player is attempted exactly once if that player can be reached when it is routed, and is understood there. */
  lemma UnicastArrives(ss: seq<Step>, a: nat, l: nat, p: Wire.Packet)
    requires Possible(ss) && ReadAt(ss, a, p) && p.dest != p.sender && p.dest != Wire.BROADCAST
    requires l < |ss| && ss[l].Route? && ss[l].j == ss[a].j && a < l
    requires Possible(ss[..l]) && Enabled(RelayAfter(ss[..l]), ss[l])
    requires var c := RelayAfter(ss[..l]); p.dest in Reachable(c.table.heap[c.jobs[ss[l].j].phase.r].players, p.sender)
    ensures var ds := SentBy(RelayAfter(ss).sent, ss[a].j);
      && |ds| == 1 && ds[0].dest == p.dest && |ds[0].data| <= Wire.MAX_PACKET
      && Wire.AdapterReceives(p.dest, Wire.OnWire(ds[0].target.TcpPeer?, ds[0].data)) == Wire.ToPeer(p.sender, p.payload)
  {
    ReadsThePacket(ss, a, p);
    RoutedOnce(ss, l);
    var c := RelayAfter(ss[..l]);
    assert c.jobs[ss[a].j].data == ss[a].data by {
      assert ss[..l][a] == ss[a];
      PacketStays(ss[..l], a);
    }
    hide Possible, RelayAfter, Linked, ReadAt, SentBy;
    SentToOne(c.table.heap[c.jobs[ss[l].j].phase.r].players, ss[l].j, c.jobs[ss[l].j].source, ss[a].data, ss[l].order, ss[l].failing);
    Wire.WrittenIsDispatched(p.dest, NewSends(c, ss[l])[0].target.TcpPeer?, ss[a].data);
  }

  /** A hello that is routed comes back to its sender exactly once, over the transport it came by, and is understood as a pong. */
  lemma HelloComesBack(ss: seq<Step>, a: nat, l: nat, p: Wire.Packet)
    requires Possible(ss) && ReadAt(ss, a, p) && p.dest == p.sender
    requires l < |ss| && ss[l].Route? && ss[l].j == ss[a].j && a < l
    requires Possible(ss[..l]) && Enabled(RelayAfter(ss[..l]), ss[l])
    ensures var ds := SentBy(RelayAfter(ss).sent, ss[a].j);
      && |ds| == 1 && ds[0].dest == p.sender && ds[0].target == ss[a].source && |ds[0].data| <= Wire.MAX_PACKET
      && Wire.AdapterReceives(p.sender, Wire.OnWire(ss[a].source.TcpPeer?, ds[0].data)) == Wire.Pong
  {
    ReadsThePacket(ss, a, p);
    assert ss[..l][a] == ss[a];
    PacketStays(ss[..l], a);
    HelloIsEchoedOnce(ss, l);
    hide Possible, RelayAfter, Linked, ReadAt, SentBy;
    Wire.WrittenIsDispatched(p.sender, ss[a].source.TcpPeer?, ss[a].data);
  }

  lemma SentToOne(players: map<PlayerId, PlayerInfo>, j: JobId, source: Endpoint, data: seq<byte>, order: seq<PlayerId>,
                  failing: set<PlayerId>)
    requires Wire.HEADER_SIZE <= |data| <= Wire.MAX_PACKET && Walks(players, data, order)
    requires DestOf(data) != SenderOf(data) && DestOf(data) != Wire.BROADCAST
    requires DestOf(data) in Reachable(players, SenderOf(data))
    ensures var ds := Sends(players, j, source, data, order, failing);
      |ds| == 1 && ds[0].dest == DestOf(data) && ds[0].data == data
  {
    assert DestOf(data) in Addressees(players, data);
    DistinctLength(order, {DestOf(data)});
  }
}
