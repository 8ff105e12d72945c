/** The peer manager in place: maps of peer objects, an order counter, and the sockets of the process. */
module PeerManager {
  import opened Bytes
  import opened PeerTable

  class Sockets {
    var bound: nat
    var closed: multiset<Socket>

    constructor ()
      ensures bound == 0 && closed == multiset{}
    {
      bound, closed := 0, multiset{};
    }

    method Bind() returns (c: Socket)
      modifies this
      ensures c == old(bound) && bound == old(bound) + 1 && closed == old(closed)
    {
      c, bound := bound, bound + 1;
    }

    method Close(c: Socket)
      modifies this
      ensures bound == old(bound) && closed == old(closed) + multiset{c}
    {
      closed := closed + multiset{c};
    }
  }

  /** `identity` stands for the pointer: no two objects have the same. */
  class PeerObject {
    const identity: Identity
    const conn: Socket
    var ownsConn: bool
    var addedOrder: nat
    var gameAddr: Option<Addr>

    function View(): IcePeer
      reads this
    {
      IcePeer(identity, conn, ownsConn, addedOrder, gameAddr)
    }

    constructor (identity: Identity, conn: Socket, ownsConn: bool)
      ensures View() == IcePeer(identity, conn, ownsConn, 0, None)
    {
      this.identity, this.conn, this.ownsConn := identity, conn, ownsConn;
      addedOrder, gameAddr := 0, None;
    }

    method Close(os: Sockets)
      modifies os
      ensures os.bound == old(os.bound)
      ensures os.closed == old(os.closed) + if ownsConn then multiset{conn} else multiset{}
    {
      if ownsConn {
        os.Close(conn);
      }
    }

    method ReadGamePacket(source: Addr)
      modifies this
      ensures View() == old(View()).(gameAddr := Learned(old(gameAddr), source))
    {
      if gameAddr.None? || gameAddr.value.port != source.port {
        gameAddr := Some(source);
      }
    }
  }

  /** An ICE peer as it is created, before it has a place in the order: it owns the socket it did not inherit. */
  function NewPeer(identity: Identity, existing: Option<Socket>, bound: Socket): IcePeer {
    IcePeer(identity, if existing.Some? then existing.value else bound, existing.None?, 0, None)
  }

  /** What creating a peer does to the counters and sockets, before it is registered. */
  function AfterNew(t: Table, existing: Option<Socket>, binds: bool, agent: bool): Table {
    if existing.None? && !binds then t
    else
      var t' := if existing.None? then t.(bound := t.bound + 1) else t;
      if agent then t'.(created := t.created + 1)
      else if existing.None? then t'.(closed := t.closed + multiset{t.bound}) else t'
  }

  /** A created peer gets its place: the order and game address taken over, or the next order. */
  function Installed(t: Table, pid: PlayerId, peer: IcePeer, order: nat, gameAddr: Option<Addr>): Table {
    var next := if order > 0 then t.nextOrder else t.nextOrder + 1;
    t.(nextOrder := next, icePeers := t.icePeers[pid := peer.(order := if order > 0 then order else next, gameAddr := gameAddr)])
  }

  function DropRelay(t: Table, pid: PlayerId): Table
    requires pid in t.peers
  {
    t.(peers := t.peers - {pid}, closed := t.closed + multiset{t.peers[pid].conn})
  }

  function DropIce(t: Table, pid: PlayerId): Table
    requires pid in t.icePeers
  {
    var p := t.icePeers[pid];
    t.(icePeers := t.icePeers - {pid}, closed := t.closed + if p.ownsConn then multiset{p.conn} else multiset{})
  }

  /** Closing one relay peer leaves the same to be reached by closing all. */
  lemma DropRelayKeepsGoal(t: Table, pid: PlayerId)
    requires Inv(t) && pid in t.peers
    ensures CloseAll(DropRelay(t, pid)) == CloseAll(t)
  {
    var t', conn := DropRelay(t, pid), t.peers[pid].conn;
    assert OwnedSockets(t') == OwnedSockets(t);
    assert conn !in RelaySockets(t') by {
      forall q | q in t.peers && q != pid ensures t.peers[q].conn != conn {
        assert Taken(t, Relay(q)) && Taken(t, Relay(pid));
      }
    }
    hide Inv;
    forall c
      ensures c in RelaySockets(t) <==> c in RelaySockets(t') || c == conn
    {
      if q :| q in t.peers && q != pid && t.peers[q].conn == c {
        assert t'.peers[q].conn == c;
      }
    }
    assert RelaySockets(t) == RelaySockets(t') + {conn};
    assert multiset(RelaySockets(t)) == multiset(RelaySockets(t')) + multiset{conn};
  }

  lemma DropIceKeepsGoal(t: Table, pid: PlayerId)
    requires Inv(t) && pid in t.icePeers
    ensures CloseAll(DropIce(t, pid)) == CloseAll(t)
  {
    var t', p := DropIce(t, pid), t.icePeers[pid];
    assert RelaySockets(t') == RelaySockets(t);
    assert p.conn !in OwnedSockets(t') by {
      forall q | q in t.icePeers && q != pid ensures t.icePeers[q].conn != p.conn {
        assert Taken(t, Ice(q)) && Taken(t, Ice(pid));
      }
    }
    hide Inv;
    var mine := if p.ownsConn then {p.conn} else {};
    forall c
      ensures c in OwnedSockets(t) <==> c in OwnedSockets(t') || c in mine
    {
      if q :| q in t.icePeers && q != pid && t.icePeers[q].ownsConn && t.icePeers[q].conn == c {
        assert t'.icePeers[q].conn == c;
      }
    }
    assert OwnedSockets(t) == OwnedSockets(t') + mine;
    assert multiset(OwnedSockets(t)) == multiset(OwnedSockets(t')) + multiset(mine);
  }

  lemma DropRelayKeepsInv(t: Table, pid: PlayerId)
    requires Inv(t) && pid in t.peers
    ensures Inv(DropRelay(t, pid))
  {
    var t' := DropRelay(t, pid);
    assert Taken(t, Relay(pid));
    forall s | Taken(t', s)
      ensures Taken(t, s) && OrderAt(t', s) == OrderAt(t, s) && ConnAt(t', s) == ConnAt(t, s)
      ensures Open(t', ConnAt(t', s))
    {
      assert Taken(t, s) && s != Relay(pid);
    }
    ShrinkingKeepsApart(t, t');
  }

  lemma DropIceKeepsInv(t: Table, pid: PlayerId)
    requires Inv(t) && pid in t.icePeers
    ensures Inv(DropIce(t, pid))
  {
    var t' := DropIce(t, pid);
    assert Taken(t, Ice(pid));
    forall s | Taken(t', s)
      ensures Taken(t, s) && OrderAt(t', s) == OrderAt(t, s) && ConnAt(t', s) == ConnAt(t, s)
      ensures Open(t', ConnAt(t', s))
    {
      assert Taken(t, s) && s != Ice(pid);
    }
    ShrinkingKeepsApart(t, t');
  }

  lemma SomeKey<V>(m: map<PlayerId, V>)
    ensures m.Keys == {} || exists p :: p in m
  {
    if forall p :: p !in m {
      assert m.Keys == {};
    }
  }

  lemma NothingToClose(t: Table)
    requires t.peers.Keys == {} && t.icePeers.Keys == {}
    ensures CloseAll(t) == t
  {
  }

  /** A replacement is what its parts do in turn. */
  lemma ReplacedInParts(t: Table, pid: PlayerId, binds: bool, agent: bool, t1: Table, t2: Table)
    requires t1 == t.(icePeers := t.icePeers - {pid})
    requires t2 == AfterNew(t1, if pid in t.icePeers then Some(t.icePeers[pid].conn) else None, binds, agent)
    ensures ReplaceICEPeer(t, pid, binds, agent) ==
      if pid in t.icePeers then
        var was := t.icePeers[pid];
        if agent then Installed(t2, pid, NewPeer(t.created, Some(was.conn), t.bound), was.order, was.gameAddr)
        else t2.(closed := t2.closed + multiset{was.conn})
      else if binds && agent then Installed(t2, pid, NewPeer(t.created, None, t.bound), 0, None)
      else t2
  {
  }

  lemma RemovedInTwo(t: Table, pid: PlayerId, t': Table, t'': Table)
    requires t' == if pid in t.peers then DropRelay(t, pid) else t
    requires t'' == if pid in t.icePeers then DropIce(t', pid) else t'
    ensures t'' == RemovePeer(t, pid)
  {
  }

  class Manager {
    var peers: map<PlayerId, RelayPeer>
    var icePeers: map<PlayerId, PeerObject>
    var nextOrder: nat
    var created: nat
    const os: Sockets

    function View(): Table
      reads this, os, icePeers.Values
    {
      Table(peers, map p | p in icePeers :: icePeers[p].View(), nextOrder, os.bound, created, os.closed)
    }

    constructor (os: Sockets)
      requires os.bound == 0 && os.closed == multiset{}
      ensures this.os == os && View() == EMPTY && Inv(View())
    {
      peers, icePeers, nextOrder, created, this.os := map[], map[], 0, 0, os;
    }

    method AddPeer(pid: PlayerId, binds: bool) returns (peer: Option<RelayPeer>)
      requires Inv(View())
      modifies this, os
      ensures View() == PeerTable.AddPeer(old(View()), pid, binds) && Inv(View())
      ensures peer == (if pid in View().peers then Some(View().peers[pid]) else None)
      ensures peer.None? <==> pid !in old(peers) && !binds
    {
      AddPeerKeepsInv(View(), pid, binds);
      if pid in peers {
        return Some(peers[pid]);
      }
      if !binds {
        return None;
      }
      var conn := os.Bind();
      nextOrder := nextOrder + 1;
      peers := peers[pid := RelayPeer(conn, nextOrder)];
      peer := Some(peers[pid]);
    }

    /** A new peer object, with the socket it is given or one of its own; it is not registered yet. */
    method NewICEPeer(existing: Option<Socket>, binds: bool, agent: bool) returns (peer: PeerObject?)
      modifies this`created, os
      ensures peer == null <==> !agent || (existing.None? && !binds)
      ensures peer != null ==> fresh(peer)
      ensures peer != null ==> peer.View() == NewPeer(old(created), existing, old(os.bound))
      ensures View() == AfterNew(old(View()), existing, binds, agent)
    {
      var conn: Socket;
      if existing.Some? {
        conn := existing.value;
      } else {
        if !binds {
          return null;
        }
        conn := os.Bind();
      }
      if !agent {
        if existing.None? {
          os.Close(conn);
        }
        return null;
      }
      peer := new PeerObject(created, conn, existing.None?);
      created := created + 1;
    }

    method AddICEPeer(pid: PlayerId, binds: bool, agent: bool) returns (peer: PeerObject?)
      requires Inv(View())
      modifies this, os
      ensures View() == PeerTable.AddICEPeer(old(View()), pid, binds, agent) && Inv(View())
      ensures if pid in icePeers then peer == icePeers[pid] else peer == null
      ensures forall q :: q != pid && q in icePeers ==> q in old(icePeers) && icePeers[q] == old(icePeers[q])
    {
      hide Inv;
      ghost var t := View();
      StepKeepsInv(t, AddICE(pid, binds, agent));
      if pid in icePeers {
        return icePeers[pid];
      }
      assert t.icePeers - {pid} == t.icePeers;
      peer := NewICEPeer(None, binds, agent);
      ghost var t' := View();
      if peer != null {
        Install(pid, peer, 0, None);
      }
      ReplacedInParts(t, pid, binds, agent, t, t');
    }

    lemma OthersAreOthers(pid: PlayerId)
      requires Inv(View()) && pid in icePeers
      ensures forall q :: q in icePeers && q != pid ==> icePeers[q] != icePeers[pid]
    {
      assert forall q :: q in icePeers ==> View().icePeers[q].identity == icePeers[q].identity;
    }

    /** The first half of a replacement: close the registered peer without its socket, and unregister it. */
    method Steal(pid: PlayerId) returns (was: IcePeer)
      requires Inv(View()) && pid in icePeers
      modifies this`icePeers, icePeers[pid], os
      ensures was == old(View()).icePeers[pid]
      ensures View() == old(View()).(icePeers := old(View()).icePeers - {pid})
      ensures icePeers == old(icePeers) - {pid}
    {
      hide Inv;
      OthersAreOthers(pid);
      var peer := icePeers[pid];
      was := peer.View();
      ghost var t := View();
      assert forall q :: q in icePeers ==> t.icePeers[q] == icePeers[q].View();
      peer.ownsConn := false;
      peer.Close(os);
      icePeers := icePeers - {pid};
      assert forall q :: q in icePeers ==> icePeers[q].View() == t.icePeers[q];
      assert View().icePeers == t.icePeers - {pid};
    }

    /** The second half: the new peer takes over what was stolen, or a new place in the order. */
    method Install(pid: PlayerId, peer: PeerObject, order: nat, gameAddr: Option<Addr>)
      requires pid !in icePeers && peer !in icePeers.Values && peer.gameAddr == None
      modifies this`icePeers, this`nextOrder, peer
      ensures View() == Installed(old(View()), pid, old(peer.View()), order, gameAddr)
      ensures icePeers == old(icePeers)[pid := peer]
    {
      ghost var t := View();
      var place := order;
      if order == 0 {
        nextOrder := nextOrder + 1;
        place := nextOrder;
      }
      peer.addedOrder := place;
      if gameAddr.Some? {
        peer.gameAddr := gameAddr;
      }
      icePeers := icePeers[pid := peer];
      assert View().icePeers == t.icePeers[pid := peer.View()];
    }

    method ReplaceICEPeer(pid: PlayerId, binds: bool, agent: bool) returns (peer: PeerObject?)
      requires Inv(View())
      modifies this, os, icePeers.Values
      ensures View() == PeerTable.ReplaceICEPeer(old(View()), pid, binds, agent) && Inv(View())
      ensures if pid in icePeers then peer == icePeers[pid] else peer == null
    {
      hide Inv;
      ghost var t := View();
      ReplaceKeepsInv(t, pid, binds, agent);
      var conn, order, gameAddr := None, 0, None;
      if pid in icePeers {
        var was := Steal(pid);
        conn, order, gameAddr := Some(was.conn), was.order, was.gameAddr;
      }
      ghost var t1 := View();
      peer := NewICEPeer(conn, binds, agent);
      ghost var t2 := View();
      if peer == null {
        if conn.Some? {
          os.Close(conn.value);
        }
      } else {
        Install(pid, peer, order, gameAddr);
      }
      ReplacedInParts(t, pid, binds, agent, t1, t2);
    }

    method CloseRelay(pid: PlayerId)
      requires pid in peers
      modifies this`peers, os
      ensures View() == DropRelay(old(View()), pid) && peers == old(peers) - {pid}
    {
      os.Close(peers[pid].conn);
      peers := peers - {pid};
    }

    method CloseIce(pid: PlayerId)
      requires pid in icePeers
      modifies this`icePeers, os
      ensures View() == DropIce(old(View()), pid) && icePeers == old(icePeers) - {pid}
    {
      icePeers[pid].Close(os);
      icePeers := icePeers - {pid};
    }

    method RemovePeer(pid: PlayerId)
      requires Inv(View())
      modifies this, os
      ensures View() == PeerTable.RemovePeer(old(View()), pid) && Inv(View())
    {
      hide Inv;
      ghost var t := View();
      RemoveKeepsInv(t, pid);
      if pid in peers {
        CloseRelay(pid);
      }
      ghost var t' := View();
      assert t' == if pid in t.peers then DropRelay(t, pid) else t;
      if pid in icePeers {
        CloseIce(pid);
      }
      assert View() == if pid in t.icePeers then DropIce(t', pid) else t';
      RemovedInTwo(t, pid, t', View());
    }

    /** Peers are visited in any order; each is closed and unregistered in turn. */
    method CloseAll()
      requires Inv(View())
      modifies this, os
      ensures View() == PeerTable.CloseAll(old(View())) && Inv(View())
    {
      hide Inv, PeerTable.CloseAll;
      while peers.Keys != {}
        invariant Inv(View()) && PeerTable.CloseAll(View()) == PeerTable.CloseAll(old(View()))
        invariant icePeers == old(icePeers)
        decreases |peers.Keys|
      {
        SomeKey(peers);
        var pid :| pid in peers;
        DropRelayKeepsGoal(View(), pid);
        DropRelayKeepsInv(View(), pid);
        CloseRelay(pid);
      }
      while icePeers.Keys != {}
        invariant Inv(View()) && PeerTable.CloseAll(View()) == PeerTable.CloseAll(old(View()))
        invariant peers.Keys == {}
        decreases |icePeers.Keys|
      {
        SomeKey(icePeers);
        var pid :| pid in icePeers;
        DropIceKeepsGoal(View(), pid);
        DropIceKeepsInv(View(), pid);
        CloseIce(pid);
      }
      NothingToClose(View());
    }

    /** A game packet arrives at a peer object, registered or not. */
    method GamePacketAt(pid: PlayerId, peer: PeerObject, source: Addr)
      requires Inv(View())
      requires forall q :: q in icePeers && icePeers[q].identity == peer.identity ==> icePeers[q] == peer && q == pid
      modifies peer
      ensures View() == Learn(old(View()), pid, peer.identity, source) && Inv(View())
    {
      hide Inv;
      ghost var t := View();
      LearnKeepsInv(t, pid, peer.identity, source);
      assert forall q :: q in icePeers ==> t.icePeers[q] == icePeers[q].View();
      ghost var here := pid in icePeers && icePeers[pid].identity == peer.identity;
      assert forall q :: q in icePeers && (q != pid || !here) ==> icePeers[q] != peer;
      peer.ReadGamePacket(source);
      assert forall q :: q in icePeers && (q != pid || !here) ==> icePeers[q].View() == t.icePeers[q];
      assert here ==> icePeers[pid].View() == t.icePeers[pid].(gameAddr := Learned(t.icePeers[pid].gameAddr, source));
      assert View().icePeers == Learn(t, pid, peer.identity, source).icePeers;
    }
  }
}
