/**
 The loop that carries game data from an ICE connection to the game. Until the game has sent its
 first packet its address is unknown, and data is kept back in a bounded buffer.
 */
module EarlyBuffer {
  import opened Bytes
  import opened PeerTable

  const CAPACITY: nat := 64
  const DATA: byte := 0x64

  type Payload = seq<byte>

  /** What reaches a peer: packets of the game on its local socket, and packets of the other side on the ICE connection. */
  datatype Incoming = FromGame(source: Addr) | FromPeer(packet: seq<byte>)

  /** A packet read from the ICE connection, and the game address at that moment. */
  datatype Arrival = Arrival(packet: seq<byte>, gameAddr: Option<Addr>)

  /** A write to the game's socket was attempted; whether it succeeds is not looked at. */
  datatype Attempt = Attempt(payload: Payload, addr: Addr)

  predicate IsData(a: Arrival) {
    |a.packet| > 1 && a.packet[0] == DATA
  }

  // ---------------------------------------------------------------- what should happen

  /** The payloads that arrive while the address is unknown, and those that arrive once it is known. */
  function Early(s: seq<Arrival>): seq<Payload> {
    if s == [] then []
    else
      var a := s[|s| - 1];
      Early(s[..|s| - 1]) + if IsData(a) && a.gameAddr.None? then [a.packet[1..]] else []
  }

  function Late(s: seq<Arrival>): seq<Attempt> {
    if s == [] then []
    else
      var a := s[|s| - 1];
      Late(s[..|s| - 1]) + if IsData(a) && a.gameAddr.Some? then [Attempt(a.packet[1..], a.gameAddr.value)] else []
  }

  function FirstOf(s: seq<Payload>): seq<Payload> {
    if |s| > CAPACITY then s[..CAPACITY] else s
  }

  function SentTo(s: seq<Payload>, addr: Addr): seq<Attempt> {
    seq(|s|, i requires 0 <= i < |s| => Attempt(s[i], addr))
  }

  /** Nothing is attempted before late data arrives; then the early data goes first, to the same address. */
  function Attempts(s: seq<Arrival>): seq<Attempt> {
    if Late(s) == [] then [] else SentTo(FirstOf(Early(s)), Late(s)[0].addr) + Late(s)
  }

  function KeptBack(s: seq<Arrival>): seq<Payload> {
    if Late(s) == [] then FirstOf(Early(s)) else []
  }

  /** A game address, once learned, may change but is not forgotten. */
  ghost predicate KnownStays(s: seq<Arrival>) {
    forall i, j :: 0 <= i < j < |s| && s[i].gameAddr.Some? ==> s[j].gameAddr.Some?
  }

  /** The game address after some packets, from the one a replaced peer handed over. */
  function AddrAfter(initial: Option<Addr>, s: seq<Incoming>): Option<Addr> {
    if s == [] then initial
    else
      var before, last := AddrAfter(initial, s[..|s| - 1]), s[|s| - 1];
      if last.FromGame? then Learned(before, last.source) else before
  }

  /** The sources of the game packets among them. */
  function GameSources(s: seq<Incoming>): seq<Addr> {
    if s == [] then [] else GameSources(s[..|s| - 1]) + if s[|s| - 1].FromGame? then [s[|s| - 1].source] else []
  }

  /** The address is what the peer's own rule learns from the game's packets. */
  lemma {:induction false} AddressIsLearned(initial: Option<Addr>, s: seq<Incoming>)
    ensures AddrAfter(initial, s) == LearnedAll(initial, GameSources(s))
  {
    if s != [] {
      AddressIsLearned(initial, s[..|s| - 1]);
      LearnedAppend(initial, GameSources(s[..|s| - 1]), if s[|s| - 1].FromGame? then [s[|s| - 1].source] else []);
      hide LearnedAll;
    }
  }

  function Arrivals(initial: Option<Addr>, s: seq<Incoming>): seq<Arrival> {
    if s == [] then []
    else
      var before, last := s[..|s| - 1], s[|s| - 1];
      Arrivals(initial, before) + if last.FromPeer? then [Arrival(last.packet, AddrAfter(initial, before))] else []
  }

  lemma {:induction false} AddressStaysKnown(initial: Option<Addr>, s: seq<Incoming>)
    ensures KnownStays(Arrivals(initial, s))
    ensures forall i :: 0 <= i < |Arrivals(initial, s)| && Arrivals(initial, s)[i].gameAddr.Some? ==> AddrAfter(initial, s).Some?
  {
    if s != [] {
      AddressStaysKnown(initial, s[..|s| - 1]);
    }
  }

  // ---------------------------------------------------------------- the loop

  /** Replays the early data. */
  method Replay(buffer: seq<Payload>, addr: Addr, before: seq<Attempt>) returns (attempts: seq<Attempt>)
    ensures attempts == before + SentTo(buffer, addr)
  {
    attempts := before;
    for i := 0 to |buffer|
      invariant attempts == before + SentTo(buffer[..i], addr)
    {
      attempts := attempts + [Attempt(buffer[i], addr)];
    }
    assert buffer[..|buffer|] == buffer;
  }

  /** One data packet: forwarded behind what was kept back, or kept back itself. */
  method Forward(payload: Payload, gameAddr: Option<Addr>, before: seq<Attempt>, kept: seq<Payload>)
    returns (attempts: seq<Attempt>, buffer: seq<Payload>)
    requires |payload| > 0
    ensures gameAddr.None? ==> attempts == before && buffer == kept + if |kept| < CAPACITY then [payload] else []
    ensures gameAddr.Some? ==>
              buffer == [] && attempts == before + SentTo(kept, gameAddr.value) + [Attempt(payload, gameAddr.value)]
  {
    attempts, buffer := before, kept;
    if gameAddr.None? {
      if |buffer| < CAPACITY {
        buffer := buffer + [payload];
      }
      return;
    }
    if |buffer| > 0 {
      attempts := Replay(buffer, gameAddr.value, attempts);
      buffer := [];
    }
    attempts := attempts + [Attempt(payload, gameAddr.value)];
  }

  /** The receive loop beside the loop that learns the game's address. */
  method IceToGame(initial: Option<Addr>, incoming: seq<Incoming>) returns (attempts: seq<Attempt>, buffer: seq<Payload>)
    ensures attempts == Attempts(Arrivals(initial, incoming)) && buffer == KeptBack(Arrivals(initial, incoming))
  {
    attempts, buffer := [], [];
    var gameAddr := initial;
    for n := 0 to |incoming|
      invariant gameAddr == AddrAfter(initial, incoming[..n])
      invariant attempts == Attempts(Arrivals(initial, incoming[..n])) && buffer == KeptBack(Arrivals(initial, incoming[..n]))
    {
      NextIncoming(initial, incoming, n);
      hide Arrivals, Attempts, KeptBack, SentTo;
      match incoming[n] {
        case FromGame(source) =>
          if gameAddr.None? || gameAddr.value.port != source.port {
            gameAddr := Some(source);
          }
        case FromPeer(packet) =>
          if |packet| > 0 && packet[0] == DATA {
            var payload := packet[1..];
            if |payload| > 0 {
              attempts, buffer := Forward(payload, gameAddr, attempts, buffer);
            }
          }
      }
    }
    assert incoming[..|incoming|] == incoming;
  }

  /** What one more packet adds. */
  lemma NextIncoming(initial: Option<Addr>, s: seq<Incoming>, n: nat)
    requires n < |s|
    ensures var before, after := Arrivals(initial, s[..n]), Arrivals(initial, s[..n + 1]);
      var addr := AddrAfter(initial, s[..n]);
      && AddrAfter(initial, s[..n + 1]) == (if s[n].FromGame? then Learned(addr, s[n].source) else addr)
      && if s[n].FromGame? then after == before else Added(before, Arrival(s[n].packet, addr), after)
  {
    assert s[..n + 1][..n] == s[..n];
    AddressStaysKnown(initial, s[..n + 1]);
    if s[n].FromPeer? {
      var after := Arrivals(initial, s[..n + 1]);
      var k := |Arrivals(initial, s[..n])|;
      assert after[..k] == Arrivals(initial, s[..n]) && after[..k + 1] == after;
      NextArrival(after, k);
    }
  }

  lemma {:induction false} NothingLate(s: seq<Arrival>)
    requires forall i :: 0 <= i < |s| ==> s[i].gameAddr.None?
    ensures Late(s) == []
  {
    if s != [] {
      NothingLate(s[..|s| - 1]);
    }
  }

  /** What an arrival `a` adds to what was attempted and kept back. */
  ghost predicate Added(before: seq<Arrival>, a: Arrival, after: seq<Arrival>) {
    if !IsData(a) then Attempts(after) == Attempts(before) && KeptBack(after) == KeptBack(before)
    else if a.gameAddr.None? then
      && Attempts(after) == Attempts(before)
      && KeptBack(after) == KeptBack(before) + if |KeptBack(before)| < CAPACITY then [a.packet[1..]] else []
    else
      && KeptBack(after) == []
      && Attempts(after) == Attempts(before) + SentTo(KeptBack(before), a.gameAddr.value) + [Attempt(a.packet[1..], a.gameAddr.value)]
  }

  lemma NextArrival(s: seq<Arrival>, n: nat)
    requires n < |s| && KnownStays(s)
    ensures Added(s[..n], s[n], s[..n + 1])
  {
    hide KnownStays, FirstOf, SentTo, Early, Late;
    if !IsData(s[n]) {
      NextOther(s, n);
    } else if s[n].gameAddr.None? {
      NextEarly(s, n);
    } else {
      NextLate(s, n);
    }
  }

  lemma NextOther(s: seq<Arrival>, n: nat)
    requires n < |s| && !IsData(s[n])
    ensures Early(s[..n + 1]) == Early(s[..n]) && Late(s[..n + 1]) == Late(s[..n])
  {
    assert s[..n + 1][..n] == s[..n];
  }

  lemma NextEarly(s: seq<Arrival>, n: nat)
    requires n < |s| && KnownStays(s) && IsData(s[n]) && s[n].gameAddr.None?
    ensures Late(s[..n]) == [] && Late(s[..n + 1]) == []
    ensures KeptBack(s[..n + 1]) == KeptBack(s[..n]) + if |KeptBack(s[..n])| < CAPACITY then [s[n].packet[1..]] else []
  {
    var before, after := s[..n], s[..n + 1];
    assert after[..n] == before;
    NothingLate(before);
    FirstOfGrows(Early(before), s[n].packet[1..]);
    hide FirstOf, KnownStays;
  }

  lemma NextLate(s: seq<Arrival>, n: nat)
    requires n < |s| && IsData(s[n]) && s[n].gameAddr.Some?
    ensures KeptBack(s[..n + 1]) == []
    ensures Attempts(s[..n + 1]) ==
      Attempts(s[..n]) + SentTo(KeptBack(s[..n]), s[n].gameAddr.value) + [Attempt(s[n].packet[1..], s[n].gameAddr.value)]
  {
    var before, after := s[..n], s[..n + 1];
    assert after[..n] == before;
    var now := Attempt(s[n].packet[1..], s[n].gameAddr.value);
    assert Late(after) == Late(before) + [now] && Early(after) == Early(before);
    hide Late, Early, FirstOf;
    assert SentTo([], now.addr) == [];
  }

  lemma FirstOfGrows(s: seq<Payload>, p: Payload)
    ensures FirstOf(s + [p]) == FirstOf(s) + if |FirstOf(s)| < CAPACITY then [p] else []
  {
  }

  // ---------------------------------------------------------------- nothing lost, nothing twice

  function Payloads(s: seq<Attempt>): seq<Payload> {
    seq(|s|, i requires 0 <= i < |s| => s[i].payload)
  }

  /** All data in the order of arrival: what follows a leading 'd', unless that is nothing. */
  function Data(s: seq<Arrival>): seq<Payload> {
    if s == [] then []
    else
      var a := s[|s| - 1];
      Data(s[..|s| - 1]) + if |a.packet| >= 2 && a.packet[0] == 0x64 then [a.packet[1..]] else []
  }

  /** All early data arrives before all late data. */
  lemma {:induction false} EarlyThenLate(s: seq<Arrival>)
    requires KnownStays(s)
    ensures Data(s) == Early(s) + Payloads(Late(s))
  {
    if s == [] {
      assert Data(s) == [] && Early(s) == [] && Late(s) == [];
    } else {
      hide KnownStays, Payloads, Data, Early, Late;
      var init, a := s[..|s| - 1], s[|s| - 1];
      LastArrival(s);
      KnownBefore(s);
      EarlyThenLate(init);
      if IsData(a) {
        OneMore(Data(init), Early(init), Late(init), a);
      } else {
        assert Early(s) == Early(init) && Late(s) == Late(init) && Data(s) == Data(init);
      }
    }
  }

  lemma LastArrival(s: seq<Arrival>)
    requires s != []
    ensures var init, a := s[..|s| - 1], s[|s| - 1];
      && Data(s) == Data(init) + (if IsData(a) then [a.packet[1..]] else [])
      && Early(s) == Early(init) + (if IsData(a) && a.gameAddr.None? then [a.packet[1..]] else [])
      && Late(s) == Late(init) + if IsData(a) && a.gameAddr.Some? then [Attempt(a.packet[1..], a.gameAddr.value)] else []
  {
  }

  lemma KnownBefore(s: seq<Arrival>)
    requires s != [] && KnownStays(s)
    ensures KnownStays(s[..|s| - 1])
    ensures s[|s| - 1].gameAddr.None? ==> Late(s[..|s| - 1]) == []
  {
    if s[|s| - 1].gameAddr.None? {
      NothingLate(s[..|s| - 1]);
    }
    hide Late;
  }

  lemma OneMore(data: seq<Payload>, early: seq<Payload>, late: seq<Attempt>, a: Arrival)
    requires data == early + Payloads(late) && (a.gameAddr.None? ==> late == []) && IsData(a)
    ensures data + [a.packet[1..]] ==
      if a.gameAddr.None? then early + [a.packet[1..]] + Payloads(late)
      else early + Payloads(late + [Attempt(a.packet[1..], a.gameAddr.value)])
  {
    PayloadsAppend(late, a);
    hide Payloads;
  }

  lemma PayloadsAppend(late: seq<Attempt>, a: Arrival)
    ensures Payloads([]) == []
    ensures IsData(a) && a.gameAddr.Some? ==>
              Payloads(late + [Attempt(a.packet[1..], a.gameAddr.value)]) == Payloads(late) + [a.packet[1..]]
  {
  }

  /** Attempted and kept back together are all data in the order of arrival, less the early data beyond the first 64. */
  lemma NothingLost(initial: Option<Addr>, incoming: seq<Incoming>)
    ensures var s := Arrivals(initial, incoming);
      && |Early(s)| <= |Data(s)|
      && var early := Data(s)[..|Early(s)|];
      Payloads(Attempts(s)) + KeptBack(s) == (if |early| > 64 then early[..64] else early) + Data(s)[|Early(s)|..]
  {
    var s := Arrivals(initial, incoming);
    AddressStaysKnown(initial, incoming);
    EarlyThenLate(s);
    assert Payloads(Attempts(s)) + KeptBack(s) == FirstOf(Early(s)) + Payloads(Late(s));
    hide Arrivals, KnownStays;
  }
}
