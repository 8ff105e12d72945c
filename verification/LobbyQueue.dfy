/**
 Messages for the game that arrive before its lobby is ready. One game loop accepts a connection,
 resets the queue, opens the lobby and flushes; any number of senders submit messages meanwhile.
 Each critical section is one step. Messages are numbered in the order they take the queue lock.
 */
module LobbyQueue {
  import GpgNet

  const MAX_QUEUED: nat := 100

  type Message = GpgNet.Message

  datatype Item = Item(number: nat, message: Message)

  /** The shared fields, and what became of the messages that are no longer with anybody. */
  datatype Server = Server(
    queue: seq<Item>,
    lobbyReady: bool,
    lobbyOnce: bool,
    submissions: seq<Message>,
    flushed: seq<Item>,
    direct: seq<Item>,
    dropped: seq<Item>,
    discarded: seq<Item>)

  const NEW := Server([], false, false, [], [], [], [], [])

  // ---------------------------------------------------------------- critical sections

  /** What a sender does with the queue locked; it holds on to the message if the lobby is ready. */
  function Submit(s: Server, m: Message): Server {
    var item := Item(|s.submissions|, m);
    var s' := s.(submissions := s.submissions + [m]);
    if s.lobbyReady then s'
    else if |s.queue| >= MAX_QUEUED then s'.(dropped := s.dropped + [item])
    else s'.(queue := s.queue + [item])
  }

  /** A new connection starts over. */
  function Reset(s: Server): Server {
    s.(lobbyOnce := false, lobbyReady := false, queue := [], discarded := s.discarded + s.queue)
  }

  /** Closing the ready channel, at most once between resets. */
  function OpenLobby(s: Server): Server {
    if s.lobbyOnce then s else s.(lobbyOnce := true, lobbyReady := true)
  }

  function Take(s: Server): Server {
    s.(queue := [])
  }

  function Flushed(s: Server, item: Item): Server {
    s.(flushed := s.flushed + [item])
  }

  function Direct(s: Server, item: Item): Server {
    s.(direct := s.direct + [item])
  }

  // ---------------------------------------------------------------- interleaving

  /** Where the game loop is. */
  datatype Game = Waiting | Connected | Reading | LobbySeen | Opened | Flushing(batch: seq<Item>)

  /** `pending` are the messages of senders that have left the queue lock and not yet taken the connection lock. */
  datatype State = State(server: Server, game: Game, pending: multiset<Item>)

  const INITIAL := State(NEW, Waiting, multiset{})

  datatype Event =
    | Accept
    | ResetLobby
    | SeeLobby
    | CloseReady
    | TakeQueue
    | FlushNext
    | FlushEnd
    | Disconnect
    | SubmitMessage(message: Message)
    | SendDirect(item: Item)

  predicate Enabled(s: State, e: Event) {
    match e
    case Accept => s.game == Waiting
    case ResetLobby => s.game == Connected
    case SeeLobby => s.game == Reading
    case CloseReady => s.game == LobbySeen
    case TakeQueue => s.game == Opened
    case FlushNext => s.game.Flushing? && s.game.batch != []
    case FlushEnd => s.game == Flushing([])
    case Disconnect => s.game == Reading
    case SubmitMessage(_) => true
    case SendDirect(item) => item in s.pending
  }

  function Step(s: State, e: Event): State
    requires Enabled(s, e)
  {
    match e
    case Accept => s.(game := Connected)
    case ResetLobby => s.(server := Reset(s.server), game := Reading)
    case SeeLobby => s.(game := LobbySeen)
    case CloseReady => s.(server := OpenLobby(s.server), game := Opened)
    case TakeQueue => s.(server := Take(s.server), game := Flushing(s.server.queue))
    case FlushNext => s.(server := Flushed(s.server, s.game.batch[0]), game := Flushing(s.game.batch[1..]))
    case FlushEnd => s.(game := Reading)
    case Disconnect => s.(game := Waiting)
    case SubmitMessage(m) =>
      var item := Item(|s.server.submissions|, m);
      s.(server := Submit(s.server, m), pending := if s.server.lobbyReady then s.pending + multiset{item} else s.pending)
    case SendDirect(item) => s.(server := Direct(s.server, item), pending := s.pending - multiset{item})
  }

  ghost predicate Possible(s: State, es: seq<Event>)
    decreases |es|
  {
    es == [] || (Enabled(s, es[0]) && Possible(Step(s, es[0]), es[1..]))
  }

  function Run(s: State, es: seq<Event>): State
    requires Possible(s, es)
    decreases |es|
  {
    if es == [] then s else Run(Step(s, es[0]), es[1..])
  }

  // ---------------------------------------------------------------- invariant

  function Batch(g: Game): seq<Item> {
    if g.Flushing? then g.batch else []
  }

  /** How many times `x` is queued, being flushed, held by a sender, attempted, dropped or discarded. */
  function Places(s: State, x: Item): nat {
    multiset(s.server.queue)[x] + multiset(Batch(s.game))[x] + s.pending[x] + multiset(s.server.flushed)[x] +
    multiset(s.server.direct)[x] + multiset(s.server.dropped)[x] + multiset(s.server.discarded)[x]
  }

  predicate Submitted(ms: seq<Message>, x: Item) {
    x.number < |ms| && ms[x.number] == x.message
  }

  /** Every submitted message is in exactly one place, once, and nothing else is anywhere. */
  ghost predicate Conserved(s: State) {
    forall x :: Places(s, x) == if Submitted(s.server.submissions, x) then 1 else 0
  }

  /** What has been flushed, is being flushed and waits to be flushed. */
  function Line(s: State): seq<Item> {
    s.server.flushed + Batch(s.game) + s.server.queue
  }

  ghost predicate Ascending(q: seq<Item>, below: nat) {
    && (forall i, j :: 0 <= i < j < |q| ==> q[i].number < q[j].number)
    && (forall i :: 0 <= i < |q| ==> q[i].number < below)
  }

  ghost predicate Settled(s: State) {
    && |s.server.queue| <= MAX_QUEUED
    && s.server.lobbyOnce == s.server.lobbyReady
    && (s.game == Opened || s.game.Flushing? ==> s.server.lobbyReady)
    && (s.server.lobbyReady && s.game != Opened ==> s.server.queue == [])
  }

  ghost predicate Inv(s: State) {
    Settled(s) && Conserved(s) && Ascending(Line(s), |s.server.submissions|)
  }

  lemma CountAppend(q: seq<Item>, y: Item, x: Item)
    ensures multiset(q + [y])[x] == multiset(q)[x] + if x == y then 1 else 0
  {
  }

  lemma CountConcat(q: seq<Item>, q': seq<Item>, x: Item)
    ensures multiset(q + q')[x] == multiset(q)[x] + multiset(q')[x]
  {
  }

  lemma SubmitMoves(s: State, m: Message, x: Item)
    ensures Places(Step(s, SubmitMessage(m)), x) == Places(s, x) + if x == Item(|s.server.submissions|, m) then 1 else 0
  {
    var item := Item(|s.server.submissions|, m);
    if s.server.lobbyReady {
    } else if |s.server.queue| >= MAX_QUEUED {
      CountAppend(s.server.dropped, item, x);
    } else {
      CountAppend(s.server.queue, item, x);
    }
  }

  lemma FlushMoves(s: State, x: Item)
    requires Enabled(s, FlushNext)
    ensures Places(Step(s, FlushNext), x) == Places(s, x)
  {
    var batch := s.game.batch;
    assert batch == [batch[0]] + batch[1..];
    CountConcat([batch[0]], batch[1..], x);
    CountAppend([], batch[0], x);
    CountAppend(s.server.flushed, batch[0], x);
  }

  lemma DirectMoves(s: State, item: Item, x: Item)
    requires item in s.pending
    ensures Places(Step(s, SendDirect(item)), x) == Places(s, x)
  {
    CountAppend(s.server.direct, item, x);
  }

  lemma ResetMoves(s: State, x: Item)
    requires s.game == Connected
    ensures Places(Step(s, ResetLobby), x) == Places(s, x)
  {
    CountConcat(s.server.discarded, s.server.queue, x);
  }

  /** Moving a message from one place to another changes nothing in sum. */
  lemma StepMoves(s: State, e: Event, x: Item)
    requires Enabled(s, e) && !e.SubmitMessage?
    ensures Places(Step(s, e), x) == Places(s, x)
  {
    match e
    case FlushNext =>
      hide Places;
      FlushMoves(s, x);
    case SendDirect(item) =>
      hide Places;
      DirectMoves(s, item, x);
    case ResetLobby =>
      hide Places;
      ResetMoves(s, x);
    case _ =>
  }

  lemma StepConserves(s: State, e: Event)
    requires Enabled(s, e) && Conserved(s)
    ensures Conserved(Step(s, e))
  {
    hide Places;
    var s' := Step(s, e);
    forall x
      ensures Places(s', x) == if Submitted(s'.server.submissions, x) then 1 else 0
    {
      if e.SubmitMessage? {
        SubmitMoves(s, e.message, x);
      } else {
        StepMoves(s, e, x);
      }
    }
  }

  lemma StepKeepsOrder(s: State, e: Event)
    requires Enabled(s, e) && Settled(s) && Ascending(Line(s), |s.server.submissions|)
    ensures Ascending(Line(Step(s, e)), |Step(s, e).server.submissions|)
  {
    var s' := Step(s, e);
    match e
    case FlushNext => assert Line(s') == Line(s);
    case TakeQueue => assert Line(s') == Line(s);
    case ResetLobby => assert Line(s') == Line(s)[..|s.server.flushed|];
    case SubmitMessage(m) => assert Line(s') == Line(s) || Line(s') == Line(s) + [Item(|s.server.submissions|, m)];
    case _ => assert Line(s') == Line(s);
  }

  lemma StepSettles(s: State, e: Event)
    requires Enabled(s, e) && Settled(s)
    ensures Settled(Step(s, e))
  {
  }

  lemma StepKeepsInv(s: State, e: Event)
    requires Enabled(s, e) && Inv(s)
    ensures Inv(Step(s, e))
  {
    StepSettles(s, e);
    StepConserves(s, e);
    StepKeepsOrder(s, e);
    hide Settled, Conserved, Ascending;
  }

  lemma InitialInv()
    ensures Inv(INITIAL)
  {
  }

  /** Under any interleaving of senders with the game loop. */
  lemma {:induction false} RunKeepsInv(s: State, es: seq<Event>)
    requires Inv(s) && Possible(s, es)
    ensures Inv(Run(s, es))
    decreases |es|
  {
    if es != [] {
      StepKeepsInv(s, es[0]);
      RunKeepsInv(Step(s, es[0]), es[1..]);
    }
  }

  // ---------------------------------------------------------------- what it means

  /** In every reachable state, every submitted message has exactly one fate, and what was flushed kept the order of submission. */
  lemma EveryMessageHasOneFate(es: seq<Event>)
    requires Possible(INITIAL, es)
    ensures var s := Run(INITIAL, es);
      && (forall x :: Places(s, x) == if Submitted(s.server.submissions, x) then 1 else 0)
      && (forall i, j :: 0 <= i < j < |s.server.flushed| ==> s.server.flushed[i].number < s.server.flushed[j].number)
  {
    hide Run, Possible, Places, Settled, Ascending, Line;
    InitialInv();
    RunKeepsInv(INITIAL, es);
    FlushedInOrder(Run(INITIAL, es));
  }

  lemma FlushedInOrder(s: State)
    requires Ascending(Line(s), |s.server.submissions|)
    ensures forall i, j :: 0 <= i < j < |s.server.flushed| ==> s.server.flushed[i].number < s.server.flushed[j].number
  {
    assert forall i :: 0 <= i < |s.server.flushed| ==> Line(s)[i] == s.server.flushed[i];
  }

  /** A message is dropped only because 100 are queued, and discarded only by a new connection. */
  lemma LossesAreExplained(s: State, e: Event)
    requires Enabled(s, e) && Inv(s)
    ensures Step(s, e).server.dropped != s.server.dropped <==>
      e.SubmitMessage? && !s.server.lobbyReady && |s.server.queue| == 100
    ensures Step(s, e).server.discarded != s.server.discarded <==> e.ResetLobby? && s.server.queue != []
  {
  }

  /** Once the flush has taken the queue, it stays empty until a new connection resets the lobby. */
  lemma {:induction false} NothingQueuedAfterTake(s: State, es: seq<Event>)
    requires Inv(s) && s.game == Opened && Possible(Step(s, TakeQueue), es)
    requires forall i :: 0 <= i < |es| ==> !es[i].ResetLobby?
    ensures Run(Step(s, TakeQueue), es).server.queue == []
  {
    var taken := Step(s, TakeQueue);
    StayReady(taken, es);
  }

  lemma {:induction false} StayReady(s: State, es: seq<Event>)
    requires Possible(s, es) && s.server.lobbyReady && s.server.queue == []
    requires forall i :: 0 <= i < |es| ==> !es[i].ResetLobby?
    ensures Run(s, es).server.lobbyReady && Run(s, es).server.queue == []
    decreases |es|
  {
    if es != [] {
      StayReady(Step(s, es[0]), es[1..]);
    }
  }

  /** After a reset nothing more is handed to the game, and no sender holds a new message, until the lobby is ready. */
  lemma {:induction false} NothingSentBeforeLobby(s: State, es: seq<Event>)
    requires s.game == Connected && Possible(Step(s, ResetLobby), es)
    requires forall i :: 0 <= i < |es| ==> !es[i].CloseReady?
    ensures var end := Run(Step(s, ResetLobby), es);
      end.server.flushed == s.server.flushed && end.pending <= s.pending && multiset(end.server.direct) + end.pending == multiset(s.server.direct) + s.pending
  {
    ClosedLobbyHolds(Step(s, ResetLobby), es);
  }

  lemma {:induction false} ClosedLobbyHolds(s: State, es: seq<Event>)
    requires Possible(s, es) && !s.server.lobbyReady && (s.game in {Waiting, Connected, Reading, LobbySeen})
    requires forall i :: 0 <= i < |es| ==> !es[i].CloseReady?
    ensures Run(s, es).server.flushed == s.server.flushed && Run(s, es).pending <= s.pending
    ensures multiset(Run(s, es).server.direct) + Run(s, es).pending == multiset(s.server.direct) + s.pending
    decreases |es|
  {
    if es != [] {
      ClosedLobbyHolds(Step(s, es[0]), es[1..]);
    }
  }

  // ---------------------------------------------------------------- in place

  class GpgNetServer {
    var messageQueue: seq<Item>
    var lobbyReady: bool
    var lobbyOnce: bool
    var submissions: seq<Message>
    var flushed: seq<Item>
    var direct: seq<Item>
    var dropped: seq<Item>
    var discarded: seq<Item>

    function View(): Server
      reads this
    {
      Server(messageQueue, lobbyReady, lobbyOnce, submissions, flushed, direct, dropped, discarded)
    }

    constructor ()
      ensures View() == NEW
    {
      messageQueue, lobbyReady, lobbyOnce, submissions := [], false, false, [];
      flushed, direct, dropped, discarded := [], [], [], [];
    }

    /** The part of a send under the queue lock: `held` if the caller is to send the message itself. */
    method Enqueue(m: Message) returns (item: Item, held: bool)
      modifies this
      ensures View() == Submit(old(View()), m)
      ensures item == Item(|old(submissions)|, m) && held == old(lobbyReady)
    {
      item, held := Item(|submissions|, m), lobbyReady;
      submissions := submissions + [m];
      if lobbyReady {
        return;
      }
      if |messageQueue| >= MAX_QUEUED {
        dropped := dropped + [item];
        return;
      }
      messageQueue := messageQueue + [item];
    }

    /** A whole send, when nothing comes between its two locks. */
    method SendToGameQueued(m: Message)
      modifies this
      ensures var item := Item(|old(submissions)|, m);
        View() == if old(lobbyReady) then Direct(Submit(old(View()), m), item) else Submit(old(View()), m)
    {
      var item, held := Enqueue(m);
      if held {
        direct := direct + [item];
      }
    }

    method ResetForConnection()
      modifies this
      ensures View() == Reset(old(View()))
    {
      lobbyOnce, lobbyReady := false, false;
      discarded, messageQueue := discarded + messageQueue, [];
    }

    method TakeAll() returns (batch: seq<Item>)
      modifies this
      ensures View() == Take(old(View())) && batch == old(messageQueue)
    {
      batch, messageQueue := messageQueue, [];
    }

    /** The flush, when nobody else submits meanwhile. */
    method FlushQueue()
      modifies this
      ensures View() == Take(old(View())).(flushed := old(flushed) + old(messageQueue))
    {
      var batch := TakeAll();
      for i := 0 to |batch|
        invariant View() == Take(old(View())).(flushed := old(flushed) + batch[..i])
      {
        flushed := flushed + [batch[i]];
      }
      assert batch[..|batch|] == batch;
    }

    /** The game reports its lobby: everything queued is sent, in order. */
    method OnLobby()
      modifies this
      ensures View() == Take(OpenLobby(old(View()))).(flushed := old(flushed) + old(messageQueue))
    {
      if !lobbyOnce {
        lobbyOnce, lobbyReady := true, true;
      }
      FlushQueue();
    }
  }
}
