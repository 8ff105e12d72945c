/**
 The peers of one adapter: relay peers and ICE peers, each with a local socket the game talks to.
 Every operation holds the manager's lock throughout and is one step; learning a game address takes
 only the peer's own lock and is a step of its own. A peer object is known by its identity and a
 socket by the order in which it was bound.
 */
module PeerTable {
  import opened Bytes

  type PlayerId = int
  type Identity = nat
  type Socket = nat

  datatype Addr = Addr(ip: seq<byte>, port: u16)

  datatype RelayPeer = RelayPeer(conn: Socket, order: nat)

  datatype IcePeer = IcePeer(identity: Identity, conn: Socket, ownsConn: bool, order: nat, gameAddr: Option<Addr>)

  /** `bound` and `created` count sockets and ICE peers so far; `closed` counts the Close calls of each socket. */
  datatype Table = Table(
    peers: map<PlayerId, RelayPeer>,
    icePeers: map<PlayerId, IcePeer>,
    nextOrder: nat,
    bound: nat,
    created: nat,
    closed: multiset<Socket>)

  const EMPTY := Table(map[], map[], 0, 0, 0, multiset{})

  // ---------------------------------------------------------------- operations

  function AddPeer(t: Table, pid: PlayerId, binds: bool): Table {
    if pid in t.peers || !binds then t
    else t.(bound := t.bound + 1, nextOrder := t.nextOrder + 1,
            peers := t.peers[pid := RelayPeer(t.bound, t.nextOrder + 1)])
  }

  /** Creating an ICE peer without a socket to inherit: one is bound, and closed again if the agent fails. */
  function CreateFresh(t: Table, pid: PlayerId, binds: bool, agent: bool): Table {
    if !binds then t
    else if !agent then t.(bound := t.bound + 1, closed := t.closed + multiset{t.bound})
    else t.(bound := t.bound + 1, nextOrder := t.nextOrder + 1, created := t.created + 1,
            icePeers := t.icePeers[pid := IcePeer(t.created, t.bound, true, t.nextOrder + 1, None)])
  }

  function AddICEPeer(t: Table, pid: PlayerId, binds: bool, agent: bool): Table {
    if pid in t.icePeers then t else CreateFresh(t, pid, binds, agent)
  }

  function ReplaceICEPeer(t: Table, pid: PlayerId, binds: bool, agent: bool): Table {
    if pid !in t.icePeers then CreateFresh(t, pid, binds, agent)
    else
      var was := t.icePeers[pid];
      if !agent then t.(icePeers := t.icePeers - {pid}, closed := t.closed + multiset{was.conn})
      else
        var order := if was.order > 0 then was.order else t.nextOrder + 1;
        t.(created := t.created + 1, nextOrder := if was.order > 0 then t.nextOrder else t.nextOrder + 1,
           icePeers := t.icePeers[pid := IcePeer(t.created, was.conn, false, order, was.gameAddr)])
  }

  /** What removing the peers of `pid` closes: an inherited socket is left alone. */
  function ClosedWith(t: Table, pid: PlayerId): multiset<Socket> {
    (if pid in t.peers then multiset{t.peers[pid].conn} else multiset{}) +
    (if pid in t.icePeers && t.icePeers[pid].ownsConn then multiset{t.icePeers[pid].conn} else multiset{})
  }

  function RemovePeer(t: Table, pid: PlayerId): Table {
    t.(peers := t.peers - {pid}, icePeers := t.icePeers - {pid}, closed := t.closed + ClosedWith(t, pid))
  }

  function RelaySockets(t: Table): set<Socket> {
    set pid | pid in t.peers :: t.peers[pid].conn
  }

  function OwnedSockets(t: Table): set<Socket> {
    set pid | pid in t.icePeers && t.icePeers[pid].ownsConn :: t.icePeers[pid].conn
  }

  function CloseAll(t: Table): Table {
    t.(peers := map[], icePeers := map[], closed := t.closed + multiset(RelaySockets(t)) + multiset(OwnedSockets(t)))
  }

  /** The game's address follows the port of the latest game packet. */
  function Learned(known: Option<Addr>, source: Addr): Option<Addr> {
    if known.None? || known.value.port != source.port then Some(source) else known
  }

  /** The address after the packets of some sources. */
  function LearnedAll(known: Option<Addr>, sources: seq<Addr>): Option<Addr> {
    if sources == [] then known else Learned(LearnedAll(known, sources[..|sources| - 1]), sources[|sources| - 1])
  }

  /** The latest packets, from `f` on, came from one port, and `f` is as early as can be. */
  ghost predicate LastPortSince(sources: seq<Addr>, f: nat) {
    && f < |sources|
    && (forall k :: f <= k < |sources| ==> sources[k].port == sources[f].port)
    && (f > 0 ==> sources[f - 1].port != sources[f].port)
  }

  /** The game's address is the source of the first packet since the port last changed, or the one known before if that had the port already. */
  lemma {:induction false} AddressIsFirstOfPort(known: Option<Addr>, sources: seq<Addr>, f: nat)
    requires LastPortSince(sources, f)
    ensures LearnedAll(known, sources) ==
            if f == 0 && known.Some? && known.value.port == sources[0].port then known else Some(sources[f])
    decreases |sources|
  {
    var n := |sources| - 1;
    var before := sources[..n];
    if f < n {
      AddressIsFirstOfPort(known, before, f);
    } else if n > 0 {
      var g := PortSince(before);
      AddressIsFirstOfPort(known, before, g);
      assert before[g].port == before[n - 1].port != sources[n].port;
    }
  }

  lemma {:induction false} PortSince(sources: seq<Addr>) returns (f: nat)
    requires sources != []
    ensures LastPortSince(sources, f)
    decreases |sources|
  {
    var n := |sources| - 1;
    if n == 0 || sources[n - 1].port != sources[n].port {
      f := n;
    } else {
      f := PortSince(sources[..n]);
      assert sources[f].port == sources[n - 1].port;
    }
  }

  /** A game packet read by the peer object `identity`, which may have left the table. */
  function Learn(t: Table, pid: PlayerId, identity: Identity, source: Addr): Table {
    if pid in t.icePeers && t.icePeers[pid].identity == identity then
      var p := t.icePeers[pid];
      t.(icePeers := t.icePeers[pid := p.(gameAddr := Learned(p.gameAddr, source))])
    else t
  }

  datatype Event =
    | Add(pid: PlayerId, binds: bool)
    | AddICE(pid: PlayerId, binds: bool, agent: bool)
    | Replace(pid: PlayerId, binds: bool, agent: bool)
    | Remove(pid: PlayerId)
    | RemoveAll
    | GamePacket(pid: PlayerId, identity: Identity, source: Addr)

  function Step(t: Table, e: Event): Table {
    match e
    case Add(pid, binds) => AddPeer(t, pid, binds)
    case AddICE(pid, binds, agent) => AddICEPeer(t, pid, binds, agent)
    case Replace(pid, binds, agent) => ReplaceICEPeer(t, pid, binds, agent)
    case Remove(pid) => RemovePeer(t, pid)
    case RemoveAll => CloseAll(t)
    case GamePacket(pid, identity, source) => Learn(t, pid, identity, source)
  }

  function Run(t: Table, es: seq<Event>): Table {
    if es == [] then t else Step(Run(t, es[..|es| - 1]), es[|es| - 1])
  }

  // ---------------------------------------------------------------- invariant

  /** A place a peer can be registered at. */
  datatype Seat = Relay(pid: PlayerId) | Ice(pid: PlayerId)

  predicate Taken(t: Table, s: Seat) {
    match s case Relay(pid) => pid in t.peers case Ice(pid) => pid in t.icePeers
  }

  function OrderAt(t: Table, s: Seat): nat
    requires Taken(t, s)
  {
    match s case Relay(pid) => t.peers[pid].order case Ice(pid) => t.icePeers[pid].order
  }

  function ConnAt(t: Table, s: Seat): Socket
    requires Taken(t, s)
  {
    match s case Relay(pid) => t.peers[pid].conn case Ice(pid) => t.icePeers[pid].conn
  }

  predicate Open(t: Table, c: Socket) {
    c < t.bound && t.closed[c] == 0
  }

  /** Every registered peer has an insertion order already handed out, and an open socket. */
  ghost predicate Placed(t: Table) {
    forall s :: Taken(t, s) ==> 1 <= OrderAt(t, s) <= t.nextOrder && Open(t, ConnAt(t, s))
  }

  /** No two registered peers, relay or ICE, share an insertion order or a socket. */
  ghost predicate Apart(t: Table) {
    forall s, s' :: Taken(t, s) && Taken(t, s') && s != s' ==> OrderAt(t, s) != OrderAt(t, s') && ConnAt(t, s) != ConnAt(t, s')
  }

  ghost predicate Identified(t: Table) {
    && (forall p :: p in t.icePeers ==> t.icePeers[p].identity < t.created)
    && (forall p, q :: p in t.icePeers && q in t.icePeers && p != q ==> t.icePeers[p].identity != t.icePeers[q].identity)
  }

  /** No socket is closed twice. */
  ghost predicate ClosedOnce(t: Table) {
    forall c :: t.closed[c] <= 1 && (c >= t.bound ==> t.closed[c] == 0)
  }

  ghost predicate Inv(t: Table) {
    Placed(t) && Apart(t) && Identified(t) && ClosedOnce(t)
  }

  /** `t'` holds no peer that `t` does not hold at the same place with the same order and socket. */
  ghost predicate Shrinks(t: Table, t': Table) {
    forall s :: Taken(t', s) ==> Taken(t, s) && OrderAt(t', s) == OrderAt(t, s) && ConnAt(t', s) == ConnAt(t, s)
  }

  lemma ShrinkingKeepsApart(t: Table, t': Table)
    requires Apart(t) && Shrinks(t, t')
    ensures Apart(t')
  {
  }

  lemma CreateFreshKeepsInv(t: Table, pid: PlayerId, binds: bool, agent: bool)
    requires Inv(t) && pid !in t.icePeers
    ensures Inv(CreateFresh(t, pid, binds, agent))
  {
    var t' := CreateFresh(t, pid, binds, agent);
    forall s | Taken(t', s)
      ensures 1 <= OrderAt(t', s) <= t'.nextOrder && Open(t', ConnAt(t', s))
    {
      assert s != Ice(pid) ==> Taken(t, s);
    }
    forall s, s' | Taken(t', s) && Taken(t', s') && s != s'
      ensures OrderAt(t', s) != OrderAt(t', s') && ConnAt(t', s) != ConnAt(t', s')
    {
      assert s != Ice(pid) ==> Taken(t, s);
      assert s' != Ice(pid) ==> Taken(t, s');
    }
  }

  lemma AddPeerKeepsInv(t: Table, pid: PlayerId, binds: bool)
    requires Inv(t)
    ensures Inv(AddPeer(t, pid, binds))
  {
    var t' := AddPeer(t, pid, binds);
    forall s | Taken(t', s)
      ensures 1 <= OrderAt(t', s) <= t'.nextOrder && Open(t', ConnAt(t', s))
    {
      assert s != Relay(pid) ==> Taken(t, s);
    }
    forall s, s' | Taken(t', s) && Taken(t', s') && s != s'
      ensures OrderAt(t', s) != OrderAt(t', s') && ConnAt(t', s) != ConnAt(t', s')
    {
      assert s != Relay(pid) ==> Taken(t, s);
      assert s' != Relay(pid) ==> Taken(t, s');
    }
  }

  lemma ReplaceKeepsInv(t: Table, pid: PlayerId, binds: bool, agent: bool)
    requires Inv(t)
    ensures Inv(ReplaceICEPeer(t, pid, binds, agent))
  {
    if pid !in t.icePeers {
      CreateFreshKeepsInv(t, pid, binds, agent);
    } else {
      var t' := ReplaceICEPeer(t, pid, binds, agent);
      assert Taken(t, Ice(pid));
      forall s | Taken(t', s)
        ensures Taken(t, s) && OrderAt(t', s) == OrderAt(t, s) && ConnAt(t', s) == ConnAt(t, s)
        ensures Open(t', ConnAt(t', s))
      {
        assert s != Ice(pid) ==> Taken(t, s);
      }
      ShrinkingKeepsApart(t, t');
    }
  }

  lemma RemoveKeepsInv(t: Table, pid: PlayerId)
    requires Inv(t)
    ensures Inv(RemovePeer(t, pid))
  {
    var t' := RemovePeer(t, pid);
    assert pid in t.peers ==> Taken(t, Relay(pid));
    assert pid in t.icePeers ==> Taken(t, Ice(pid));
    forall s | Taken(t', s)
      ensures Taken(t, s) && OrderAt(t', s) == OrderAt(t, s) && ConnAt(t', s) == ConnAt(t, s)
      ensures Open(t', ConnAt(t', s))
    {
    }
    ShrinkingKeepsApart(t, t');
  }

  lemma CloseAllKeepsInv(t: Table)
    requires Inv(t)
    ensures Inv(CloseAll(t))
  {
    forall c
      ensures CloseAll(t).closed[c] <= 1 && (c >= t.bound ==> CloseAll(t).closed[c] == 0)
    {
      if c in RelaySockets(t) {
        var p :| p in t.peers && t.peers[p].conn == c;
        assert Taken(t, Relay(p));
      }
      if c in OwnedSockets(t) {
        var q :| q in t.icePeers && t.icePeers[q].ownsConn && t.icePeers[q].conn == c;
        assert Taken(t, Ice(q));
      }
    }
  }

  lemma LearnKeepsInv(t: Table, pid: PlayerId, identity: Identity, source: Addr)
    requires Inv(t)
    ensures Inv(Learn(t, pid, identity, source))
  {
    var t' := Learn(t, pid, identity, source);
    forall s | Taken(t', s)
      ensures Taken(t, s) && OrderAt(t', s) == OrderAt(t, s) && ConnAt(t', s) == ConnAt(t, s)
      ensures Open(t', ConnAt(t', s))
    {
      assert Taken(t, s);
    }
    ShrinkingKeepsApart(t, t');
  }

  lemma StepKeepsInv(t: Table, e: Event)
    requires Inv(t)
    ensures Inv(Step(t, e))
  {
    match e
    case Add(pid, binds) => AddPeerKeepsInv(t, pid, binds);
    case AddICE(pid, binds, agent) => if pid !in t.icePeers { CreateFreshKeepsInv(t, pid, binds, agent); }
    case Replace(pid, binds, agent) => ReplaceKeepsInv(t, pid, binds, agent);
    case Remove(pid) => RemoveKeepsInv(t, pid);
    case RemoveAll => CloseAllKeepsInv(t);
    case GamePacket(pid, identity, source) => LearnKeepsInv(t, pid, identity, source);
  }

  /** In every reachable state, orders and open sockets are pairwise distinct across relay and ICE peers. */
  lemma {:induction false} RunKeepsInv(t: Table, es: seq<Event>)
    requires Inv(t)
    ensures Inv(Run(t, es))
  {
    if es != [] {
      RunKeepsInv(t, es[..|es| - 1]);
      StepKeepsInv(Run(t, es[..|es| - 1]), es[|es| - 1]);
    }
  }

  // ---------------------------------------------------------------- addition and removal

  /** A new ICE peer comes last in the order, with a socket of its own; a failed addition leaves no peer and no open socket behind. */
  lemma AdditionOutcome(t: Table, pid: PlayerId, binds: bool, agent: bool)
    requires Inv(t) && pid !in t.icePeers
    ensures var t' := AddICEPeer(t, pid, binds, agent);
      && t'.peers == t.peers && t'.icePeers - {pid} == t.icePeers
      && (pid in t'.icePeers <==> binds && agent)
      && (binds && agent ==>
            var p := t'.icePeers[pid];
            && p.ownsConn && p.gameAddr == None && Open(t', p.conn)
            && (forall s :: Taken(t, s) ==> OrderAt(t, s) < p.order && ConnAt(t, s) != p.conn))
      && (!(binds && agent) ==> forall c :: Open(t', c) <==> Open(t, c))
  {
    var t' := AddICEPeer(t, pid, binds, agent);
    assert t'.icePeers - {pid} == t.icePeers;
    assert t.closed[t.bound] == 0;
    hide Apart, Identified, ClosedOnce;
  }

  /** A new relay peer likewise; and adding where a peer is already registered changes nothing. */
  lemma RelayAdditionOutcome(t: Table, pid: PlayerId, binds: bool)
    requires Inv(t)
    ensures var t' := AddPeer(t, pid, binds);
      && t'.icePeers == t.icePeers && t'.peers - {pid} == t.peers - {pid}
      && (pid in t'.peers <==> pid in t.peers || binds)
      && (pid in t.peers || !binds ==> t' == t)
      && (pid !in t.peers && binds ==>
            var p := t'.peers[pid];
            && Open(t', p.conn)
            && (forall s :: Taken(t, s) ==> OrderAt(t, s) < p.order && ConnAt(t, s) != p.conn))
  {
    assert AddPeer(t, pid, binds).peers - {pid} == t.peers - {pid};
    assert t.closed[t.bound] == 0;
    hide Apart, Identified, ClosedOnce;
  }

  /** Replacing where nobody is registered is adding, and adding where somebody is changes nothing. */
  lemma AddOrReplace(t: Table, pid: PlayerId, binds: bool, agent: bool)
    ensures pid !in t.icePeers ==> ReplaceICEPeer(t, pid, binds, agent) == AddICEPeer(t, pid, binds, agent)
    ensures pid in t.icePeers ==> AddICEPeer(t, pid, binds, agent) == t
  {
  }

  /** `c` is the socket of some registered peer that will close it. */
  ghost predicate WillClose(t: Table, c: Socket) {
    exists s :: Taken(t, s) && ConnAt(t, s) == c && (s.Ice? ==> t.icePeers[s.pid].ownsConn)
  }

  /** Closing all leaves no peer of either kind, and closes each socket that a peer owns, once. */
  lemma CloseAllOutcome(t: Table)
    requires Inv(t)
    ensures var t' := CloseAll(t);
      && (forall s :: !Taken(t', s))
      && (forall c :: t'.closed[c] == t.closed[c] + if WillClose(t, c) then 1 else 0)
      && t'.bound == t.bound && t'.nextOrder == t.nextOrder && t'.created == t.created
  {
    forall c
      ensures CloseAll(t).closed[c] == t.closed[c] + if WillClose(t, c) then 1 else 0
    {
      ClosesOnce(t, c);
    }
  }

  lemma ClosesOnce(t: Table, c: Socket)
    requires Inv(t)
    ensures CloseAll(t).closed[c] == t.closed[c] + if WillClose(t, c) then 1 else 0
  {
    if c in RelaySockets(t) {
      var p :| p in t.peers && t.peers[p].conn == c;
      assert Taken(t, Relay(p)) && ConnAt(t, Relay(p)) == c;
    }
    if c in OwnedSockets(t) {
      var p :| p in t.icePeers && t.icePeers[p].ownsConn && t.icePeers[p].conn == c;
      assert Taken(t, Ice(p)) && ConnAt(t, Ice(p)) == c;
    }
    if WillClose(t, c) {
      var s :| Taken(t, s) && ConnAt(t, s) == c && (s.Ice? ==> t.icePeers[s.pid].ownsConn);
      assert s.Relay? ==> c in RelaySockets(t);
      assert s.Ice? ==> c in OwnedSockets(t);
    }
  }

  /** A removal takes the player's peers and nobody else's, and closes their own sockets, once each. */
  lemma RemovalOutcome(t: Table, pid: PlayerId)
    requires Inv(t)
    ensures var t' := RemovePeer(t, pid);
      && (forall s :: Taken(t', s) <==> Taken(t, s) && s.pid != pid)
      && (forall s :: Taken(t', s) ==> OrderAt(t', s) == OrderAt(t, s) && ConnAt(t', s) == ConnAt(t, s))
      && (forall c :: t'.closed[c] == t.closed[c] +
            if (exists s :: Taken(t, s) && s.pid == pid && ConnAt(t, s) == c && (s.Ice? ==> t.icePeers[pid].ownsConn)) then 1 else 0)
  {
    var t' := RemovePeer(t, pid);
    assert pid in t.peers ==> Taken(t, Relay(pid));
    assert pid in t.icePeers ==> Taken(t, Ice(pid));
    forall c
      ensures t'.closed[c] == t.closed[c] +
        if (exists s :: Taken(t, s) && s.pid == pid && ConnAt(t, s) == c && (s.Ice? ==> t.icePeers[pid].ownsConn)) then 1 else 0
    {
      if pid in t.peers && t.peers[pid].conn == c {
        assert Taken(t, Relay(pid)) && ConnAt(t, Relay(pid)) == c;
      } else if pid in t.icePeers && t.icePeers[pid].conn == c {
        assert Taken(t, Ice(pid)) && ConnAt(t, Ice(pid)) == c;
      }
    }
  }

  // ---------------------------------------------------------------- replacement

  /** A replacement keeps the socket, the order and the game address under a new identity; a failed one closes the socket, once, and leaves no entry. */
  lemma ReplacementOutcome(t: Table, pid: PlayerId, binds: bool, agent: bool)
    requires Inv(t) && pid in t.icePeers
    ensures var t' := ReplaceICEPeer(t, pid, binds, agent);
      var was := t.icePeers[pid];
      && t'.peers == t.peers && t'.nextOrder == t.nextOrder && t'.bound == t.bound
      && (forall q :: q != pid ==> (q in t'.icePeers <==> q in t.icePeers) && (q in t.icePeers ==> t'.icePeers[q] == t.icePeers[q]))
      && (agent <==> pid in t'.icePeers)
      && (agent ==>
            && t'.icePeers[pid].identity != was.identity && !t'.icePeers[pid].ownsConn
            && t'.icePeers[pid].(identity := was.identity, ownsConn := was.ownsConn) == was
            && t'.closed == t.closed && Open(t', was.conn))
      && (!agent ==> t.closed[was.conn] == 0 && t'.closed[was.conn] == 1 && forall c :: c != was.conn ==> t'.closed[c] == t.closed[c])
  {
    assert Taken(t, Ice(pid));
  }

  /** `pid` has an ICE peer before and after every event of the run. */
  ghost predicate Throughout(t: Table, es: seq<Event>, pid: PlayerId) {
    forall n :: 0 <= n <= |es| ==> pid in Run(t, es[..n]).icePeers
  }

  lemma ThroughoutPrefix(t: Table, es: seq<Event>, pid: PlayerId)
    requires es != [] && Throughout(t, es, pid)
    ensures Throughout(t, es[..|es| - 1], pid) && pid in Run(t, es).icePeers && pid in t.icePeers
  {
    var init := es[..|es| - 1];
    forall n | 0 <= n <= |init|
      ensures pid in Run(t, init[..n]).icePeers
    {
      assert init[..n] == es[..n];
    }
    assert es[..|es|] == es && es[..0] == [];
  }

  /** The source of a game packet read by the peer object then registered for `pid`. */
  function HeardIn(t: Table, e: Event, pid: PlayerId): seq<Addr> {
    if e.GamePacket? && e.pid == pid && pid in t.icePeers && t.icePeers[pid].identity == e.identity then [e.source] else []
  }

  function Heard(t: Table, es: seq<Event>, pid: PlayerId): seq<Addr> {
    if es == [] then []
    else Heard(t, es[..|es| - 1], pid) + HeardIn(Run(t, es[..|es| - 1]), es[|es| - 1], pid)
  }

  lemma StepKeepsPort(t: Table, e: Event, pid: PlayerId)
    requires Placed(t) && pid in t.icePeers && pid in Step(t, e).icePeers
    ensures var p, q, heard := t.icePeers[pid], Step(t, e).icePeers[pid], HeardIn(t, e, pid);
      && q.conn == p.conn && q.order == p.order
      && q.gameAddr == if heard == [] then p.gameAddr else Learned(p.gameAddr, heard[0])
  {
    assert Taken(t, Ice(pid));
  }

  lemma LearnedAppend(known: Option<Addr>, sources: seq<Addr>, more: seq<Addr>)
    requires |more| <= 1
    ensures LearnedAll(known, sources + more) ==
            if more == [] then LearnedAll(known, sources) else Learned(LearnedAll(known, sources), more[0])
  {
    if more == [] {
      assert sources + more == sources;
    } else {
      assert (sources + more)[..|sources|] == sources;
    }
  }

  /**
   However often its peer is replaced, a player that stays registered keeps its port and its order, and its game address is the
   one learned from all game packets that its peers have read.
   */
  lemma {:induction false} RunKeepsPort(t: Table, es: seq<Event>, pid: PlayerId)
    requires Inv(t) && Throughout(t, es, pid)
    ensures pid in t.icePeers && pid in Run(t, es).icePeers
    ensures Run(t, es).icePeers[pid].conn == t.icePeers[pid].conn
    ensures Run(t, es).icePeers[pid].order == t.icePeers[pid].order
    ensures Run(t, es).icePeers[pid].gameAddr == LearnedAll(t.icePeers[pid].gameAddr, Heard(t, es, pid))
  {
    if es == [] {
      assert es[..0] == [];
    } else {
      ThroughoutPrefix(t, es, pid);
      var init, e := es[..|es| - 1], es[|es| - 1];
      RunKeepsPort(t, init, pid);
      RunKeepsInv(t, init);
      StepKeepsPort(Run(t, init), e, pid);
      LearnedAppend(t.icePeers[pid].gameAddr, Heard(t, init, pid), HeardIn(Run(t, init), e, pid));
      hide Throughout, Step, Placed, LearnedAll, Learned, HeardIn;
    }
  }

  // ---------------------------------------------------------------- sockets left behind

  ghost predicate InUse(t: Table, c: Socket) {
    exists s :: Taken(t, s) && ConnAt(t, s) == c
  }

  /** Sockets still open that no registered peer holds. */
  ghost function Leaked(t: Table): set<Socket> {
    set c: Socket | c < t.bound && Open(t, c) && !InUse(t, c)
  }

  /** The sockets an event leaves behind: those that the ICE peers it removes had inherited. */
  ghost function Abandons(t: Table, e: Event): set<Socket> {
    match e
    case Remove(pid) => if pid in t.icePeers && !t.icePeers[pid].ownsConn then {t.icePeers[pid].conn} else {}
    case RemoveAll => set pid | pid in t.icePeers && !t.icePeers[pid].ownsConn :: t.icePeers[pid].conn
    case _ => {}
  }

  lemma InUseAt(t: Table, s: Seat)
    requires Taken(t, s)
    ensures InUse(t, ConnAt(t, s))
  {
  }

  lemma CreateLeaksNothing(t: Table, pid: PlayerId, binds: bool, agent: bool, c: Socket)
    requires Inv(t) && pid !in t.icePeers
    ensures var t' := CreateFresh(t, pid, binds, agent); c in Leaked(t') <==> c in Leaked(t)
  {
    var t' := CreateFresh(t, pid, binds, agent);
    if InUse(t, c) {
      var s :| Taken(t, s) && ConnAt(t, s) == c;
      assert Taken(t', s) && ConnAt(t', s) == c;
    }
    if InUse(t', c) && c != t.bound {
      var s :| Taken(t', s) && ConnAt(t', s) == c;
      assert Taken(t, s) && ConnAt(t, s) == c;
    }
    if binds && agent {
      InUseAt(t', Ice(pid));
    }
  }

  lemma AddLeaksNothing(t: Table, pid: PlayerId, binds: bool, c: Socket)
    requires Inv(t)
    ensures var t' := AddPeer(t, pid, binds); c in Leaked(t') <==> c in Leaked(t)
  {
    var t' := AddPeer(t, pid, binds);
    if InUse(t, c) {
      var s :| Taken(t, s) && ConnAt(t, s) == c;
      assert Taken(t', s) && ConnAt(t', s) == c;
    }
    if InUse(t', c) && c != t.bound {
      var s :| Taken(t', s) && ConnAt(t', s) == c;
      assert Taken(t, s) && ConnAt(t, s) == c;
    }
    if pid !in t.peers && binds {
      InUseAt(t', Relay(pid));
    }
  }

  lemma ReplaceLeaksNothing(t: Table, pid: PlayerId, binds: bool, agent: bool, c: Socket)
    requires Inv(t)
    ensures var t' := ReplaceICEPeer(t, pid, binds, agent); c in Leaked(t') <==> c in Leaked(t)
  {
    if pid !in t.icePeers {
      CreateLeaksNothing(t, pid, binds, agent, c);
    } else {
      var t' := ReplaceICEPeer(t, pid, binds, agent);
      assert Taken(t, Ice(pid));
      if InUse(t, c) && (agent || c != t.icePeers[pid].conn) {
        var s :| Taken(t, s) && ConnAt(t, s) == c;
        assert Taken(t', s) && ConnAt(t', s) == c;
      }
      if InUse(t', c) {
        var s :| Taken(t', s) && ConnAt(t', s) == c;
        assert Taken(t, s) && ConnAt(t, s) == c;
      }
    }
  }

  lemma RemoveLeaksInherited(t: Table, pid: PlayerId, c: Socket)
    requires Inv(t)
    ensures c in Leaked(RemovePeer(t, pid)) <==> c in Leaked(t) || c in Abandons(t, Remove(pid))
  {
    var t' := RemovePeer(t, pid);
    assert pid in t.peers ==> Taken(t, Relay(pid));
    assert pid in t.icePeers ==> Taken(t, Ice(pid));
    if InUse(t', c) {
      var s :| Taken(t', s) && ConnAt(t', s) == c;
      assert Taken(t, s) && ConnAt(t, s) == c;
    } else if InUse(t, c) {
      var s :| Taken(t, s) && ConnAt(t, s) == c;
      assert !Taken(t', s);
      assert s == Relay(pid) || s == Ice(pid);
    }
  }

  lemma CloseAllLeaksInherited(t: Table, c: Socket)
    requires Inv(t)
    ensures c in Leaked(CloseAll(t)) <==> c in Leaked(t) || c in Abandons(t, RemoveAll)
  {
    var t' := CloseAll(t);
    if s :| Taken(t, s) && ConnAt(t, s) == c {
      if c in RelaySockets(t) {
        var p :| p in t.peers && t.peers[p].conn == c;
        assert Taken(t, Relay(p));
      }
      if c in OwnedSockets(t) {
        var p :| p in t.icePeers && t.icePeers[p].ownsConn && t.icePeers[p].conn == c;
        assert Taken(t, Ice(p));
      }
      if c in Abandons(t, RemoveAll) {
        var p :| p in t.icePeers && !t.icePeers[p].ownsConn && t.icePeers[p].conn == c;
        assert Taken(t, Ice(p));
      }
    } else {
      forall p | p in t.peers ensures t.peers[p].conn != c { assert Taken(t, Relay(p)); }
      forall p | p in t.icePeers ensures t.icePeers[p].conn != c { assert Taken(t, Ice(p)); }
    }
  }

  lemma LearnLeaksNothing(t: Table, pid: PlayerId, identity: Identity, source: Addr, c: Socket)
    ensures var t' := Learn(t, pid, identity, source); c in Leaked(t') <==> c in Leaked(t)
  {
    var t' := Learn(t, pid, identity, source);
    if s :| Taken(t, s) && ConnAt(t, s) == c {
      assert Taken(t', s) && ConnAt(t', s) == c;
    }
    if s :| Taken(t', s) && ConnAt(t', s) == c {
      assert Taken(t, s) && ConnAt(t, s) == c;
    }
  }

  /** A step leaves behind exactly the sockets that the peers it removes had inherited. */
  lemma StepLeaks(t: Table, e: Event)
    requires Inv(t)
    ensures Leaked(Step(t, e)) == Leaked(t) + Abandons(t, e)
  {
    hide Leaked, Inv;
    forall c: Socket
      ensures c in Leaked(Step(t, e)) <==> c in Leaked(t) || c in Abandons(t, e)
    {
      match e
      case Add(pid, binds) => AddLeaksNothing(t, pid, binds, c);
      case AddICE(pid, binds, agent) => if pid !in t.icePeers { CreateLeaksNothing(t, pid, binds, agent, c); }
      case Replace(pid, binds, agent) => ReplaceLeaksNothing(t, pid, binds, agent, c);
      case Remove(pid) => RemoveLeaksInherited(t, pid, c);
      case RemoveAll => CloseAllLeaksInherited(t, c);
      case GamePacket(pid, identity, source) => LearnLeaksNothing(t, pid, identity, source, c);
    }
  }

  /** Adding a peer, replacing it and removing it leaves its socket open with nobody to close it. */
  lemma RemovedReplacementLeaks(p: PlayerId)
    ensures Leaked(Run(EMPTY, [AddICE(p, true, true), Replace(p, true, true), Remove(p)])) == {0}
  {
    var a, b, c := AddICE(p, true, true), Replace(p, true, true), Remove(p);
    assert [a, b, c][..2] == [a, b] && [a, b][..1] == [a] && [a][..0] == [];
    var t := AddICEPeer(EMPTY, p, true, true);
    assert Run(EMPTY, [a]) == t;
    assert Run(EMPTY, [a, b]) == ReplaceICEPeer(t, p, true, true);
    var u := RemovePeer(ReplaceICEPeer(t, p, true, true), p);
    assert Run(EMPTY, [a, b, c]) == u;
    hide Run;
    assert u.icePeers == map[] && u.peers == map[] && u.bound == 1 && u.closed == multiset{};
    assert forall s :: !Taken(u, s);
  }

  /** No event of the run removes an ICE peer that is itself a replacement. */
  ghost predicate RemovesNoReplacement(t: Table, es: seq<Event>) {
    es == [] || (RemovesNoReplacement(t, es[..|es| - 1]) && Abandons(Run(t, es[..|es| - 1]), es[|es| - 1]) == {})
  }

  /** From the empty table, every open socket belongs to a registered peer if and only if no removed peer was a replacement. */
  lemma {:induction false} NothingLeakedIff(es: seq<Event>)
    ensures Leaked(Run(EMPTY, es)) == {} <==> RemovesNoReplacement(EMPTY, es)
  {
    if es != [] {
      var init := es[..|es| - 1];
      NothingLeakedIff(init);
      RunKeepsInv(EMPTY, init);
      StepLeaks(Run(EMPTY, init), es[|es| - 1]);
      hide Abandons, Step, Leaked, Inv;
    }
  }
}
