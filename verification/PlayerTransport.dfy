/**
 The per-player record of a relay session and what an incoming packet does to it: address
 learning, IP pinning, rate limiting. The second half states, over whole packet histories, what
 those fields mean.
 */
module PlayerTransport {
  import opened Bytes

  /** Nanoseconds since the epoch. */
  type Time = int

  const SECOND: Time := 1_000_000_000
  const MAX_PACKETS_PER_SECOND := 2000

  function UnixSecond(t: Time): (s: int)
    ensures s * 1_000_000_000 <= t < (s + 1) * 1_000_000_000
  {
    t / SECOND
  }

  type Ip = nat
  datatype AddrPort = AddrPort(ip: Ip, port: u16)

  /** An open TCP connection; its remote IP may be unreadable. */
  datatype Conn = Conn(id: nat, ip: Option<Ip>)

  /** Where a packet came from, and where one can be sent to. */
  datatype Endpoint = UdpPeer(addr: AddrPort) | TcpPeer(conn: Conn)

  datatype PlayerInfo = PlayerInfo(
    login: string,
    addr: Option<AddrPort>,
    tcpConn: Option<Conn>,
    tcpIp: Option<Ip>,
    lastSeen: Option<Time>,
    ratePkts: u32,
    rateSecond: int)

  datatype Verdict = Accepted | FirstAddr | Unknown | Spoofed | RateLimited {
    predicate Passes() {
      Accepted? || FirstAddr?
    }
  }

  function NewPlayer(login: string): PlayerInfo {
    PlayerInfo(login, None, None, None, None, 0, 0)
  }

  function ResetTransport(p: PlayerInfo): PlayerInfo {
    p.(addr := None, tcpConn := None, tcpIp := None, lastSeen := None)
  }

  /** Go's increment of a uint32. */
  function Increment32(n: u32): u32 {
    if n == 0xFFFF_FFFF then 0 else n + 1
  }

  /** Counts a packet against the second it arrives in; the counter is 32 bits wide. */
  function CheckRate(p: PlayerInfo, second: int): (PlayerInfo, bool) {
    var before := if p.rateSecond == second then p.ratePkts else 0;
    var n := Increment32(before);
    (p.(rateSecond := second, ratePkts := n), n <= MAX_PACKETS_PER_SECOND)
  }

  predicate IsSpoofed(p: PlayerInfo, from: Endpoint) {
    match from
    case UdpPeer(a) => p.addr.Some? && p.addr.value.ip != a.ip
    case TcpPeer(c) => p.tcpIp.Some? && p.tcpIp != c.ip
  }

  /** Takes over the source of an accepted packet as the player's transport. */
  function Learn(p: PlayerInfo, from: Endpoint, now: Time): PlayerInfo {
    match from
    case UdpPeer(a) =>
      p.(addr := Some(a), tcpConn := None, tcpIp := if p.tcpConn.Some? then None else p.tcpIp, lastSeen := Some(now))
    case TcpPeer(c) =>
      p.(tcpConn := Some(c), tcpIp := if p.tcpIp.None? then c.ip else p.tcpIp, lastSeen := Some(now))
  }

  /** One packet of a registered player, under the session lock. */
  function Receive(p: PlayerInfo, from: Endpoint, now: Time): (PlayerInfo, Verdict) {
    if IsSpoofed(p, from) then (p, Spoofed)
    else
      var (q, within) := CheckRate(p, UnixSecond(now));
      if !within then (q, RateLimited)
      else (Learn(q, from, now), if p.addr.None? && p.tcpConn.None? then FirstAddr else Accepted)
  }

  /** Where a packet for the player goes: a TCP connection is preferred over an address. */
  function Target(p: PlayerInfo): Option<Endpoint> {
    if p.tcpConn.Some? then Some(TcpPeer(p.tcpConn.value))
    else if p.addr.Some? then Some(UdpPeer(p.addr.value))
    else None
  }

  // ---------------------------------------------------------------- histories

  /** What can happen to a registration between joining and leaving. */
  datatype PlayerEvent = Reset | Packet(from: Endpoint, now: Time)

  type History = seq<PlayerEvent>

  function Apply(p: PlayerInfo, e: PlayerEvent): PlayerInfo {
    if e.Reset? then ResetTransport(p) else Receive(p, e.from, e.now).0
  }

  function After(login: string, h: History): PlayerInfo {
    if h == [] then NewPlayer(login) else Apply(After(login, h[..|h| - 1]), h[|h| - 1])
  }

  function VerdictAt(login: string, h: History, i: nat): Verdict
    requires i < |h| && h[i].Packet?
  {
    Receive(After(login, h[..i]), h[i].from, h[i].now).1
  }

  predicate AcceptedAt(login: string, h: History, i: nat) {
    i < |h| && h[i].Packet? && VerdictAt(login, h, i).Passes()
  }

  /** `i` is the latest packet accepted since the registration began or was last reset. */
  ghost predicate IsLatest(login: string, h: History, i: nat) {
    && AcceptedAt(login, h, i)
    && forall j :: i < j < |h| ==> h[j].Packet? && !AcceptedAt(login, h, j)
  }

  /** Since the registration began or was last reset no packet was accepted. */
  ghost predicate NoneAccepted(login: string, h: History) {
    exists r :: 0 <= r <= |h| && NoneSince(login, h, r)
  }

  ghost predicate NoneSince(login: string, h: History, r: nat)
    requires r <= |h|
  {
    (r == 0 || h[r - 1].Reset?) && forall j :: r <= j < |h| ==> h[j].Packet? && !AcceptedAt(login, h, j)
  }

  lemma AcceptedAtPrefix(login: string, h: History, n: nat)
    requires n <= |h|
    ensures forall j :: 0 <= j < n ==> (AcceptedAt(login, h[..n], j) <==> AcceptedAt(login, h, j))
  {
    forall j | 0 <= j < n
      ensures AcceptedAt(login, h[..n], j) <==> AcceptedAt(login, h, j)
    {
      assert h[..n][..j] == h[..j];
    }
  }

  lemma NoneSinceExtends(login: string, h: History, r: nat)
    requires h != [] && r < |h| && NoneSince(login, h[..|h| - 1], r)
    requires h[|h| - 1].Packet? && !AcceptedAt(login, h, |h| - 1)
    ensures NoneSince(login, h, r)
  {
    AcceptedAtPrefix(login, h, |h| - 1);
  }

  lemma LatestExtends(login: string, h: History, i: nat)
    requires h != [] && IsLatest(login, h[..|h| - 1], i)
    requires h[|h| - 1].Packet? && !AcceptedAt(login, h, |h| - 1)
    ensures IsLatest(login, h, i)
  {
    AcceptedAtPrefix(login, h, |h| - 1);
  }

  /** The destination and last activity of a player. */
  function Contact(p: PlayerInfo): (Option<Endpoint>, Option<Time>) {
    (Target(p), p.lastSeen)
  }

  lemma LastEventContact(login: string, h: History)
    requires h != []
    ensures h[|h| - 1].Reset? ==> Contact(After(login, h)) == (None, None)
    ensures AcceptedAt(login, h, |h| - 1) ==>
            Contact(After(login, h)) == (Some(h[|h| - 1].from), Some(h[|h| - 1].now))
    ensures h[|h| - 1].Packet? && !AcceptedAt(login, h, |h| - 1) ==>
            Contact(After(login, h)) == Contact(After(login, h[..|h| - 1]))
  {
  }

  /** Every history has a latest accepted packet, or none since its last reset; the fields say which. */
  lemma {:induction false} LatestOrNone(login: string, h: History) returns (latest: Option<nat>)
    ensures latest.None? ==> NoneAccepted(login, h) && Contact(After(login, h)) == (None, None)
    ensures latest.Some? ==>
            && IsLatest(login, h, latest.value)
            && Contact(After(login, h)) == (Some(h[latest.value].from), Some(h[latest.value].now))
    decreases |h|
  {
    if h == [] {
      assert NoneSince(login, h, 0);
      return None;
    }
    var n := |h| - 1;
    LastEventContact(login, h);
    if h[n].Reset? {
      assert NoneSince(login, h, |h|);
      return None;
    }
    if AcceptedAt(login, h, n) {
      return Some(n);
    }
    latest := LatestOrNone(login, h[..n]);
    if latest.None? {
      var r :| 0 <= r <= n && NoneSince(login, h[..n], r);
      NoneSinceExtends(login, h, r);
    } else {
      LatestExtends(login, h, latest.value);
    }
  }

  lemma NoneExcludesLatest(login: string, h: History)
    requires NoneAccepted(login, h)
    ensures forall i: nat :: !IsLatest(login, h, i)
  {
  }

  lemma LatestIsUnique(login: string, h: History, i: nat)
    requires IsLatest(login, h, i)
    ensures forall j: nat :: IsLatest(login, h, j) ==> i == j
    ensures !NoneAccepted(login, h)
  {
  }

  /** Packets go to the source of the latest accepted packet since the last reset, and activity is dated from it. */
  lemma TargetIsLatestSource(login: string, h: History)
    ensures NoneAccepted(login, h) <==> Target(After(login, h)).None?
    ensures NoneAccepted(login, h) <==> After(login, h).lastSeen.None?
    ensures forall i: nat :: IsLatest(login, h, i) ==>
              Contact(After(login, h)) == (Some(h[i].from), Some(h[i].now))
  {
    var latest := LatestOrNone(login, h);
    if latest.Some? {
      LatestIsUnique(login, h, latest.value);
    } else {
      NoneExcludesLatest(login, h);
    }
  }

  /** A packet is reported as the player's first exactly when it is the first accepted since the last reset. */
  lemma FirstAddrIsFirstAccepted(login: string, h: History, i: nat)
    requires i < |h| && h[i].Packet?
    ensures VerdictAt(login, h, i) == FirstAddr <==> AcceptedAt(login, h, i) && NoneAccepted(login, h[..i])
  {
    TargetIsLatestSource(login, h[..i]);
  }

  /** Between two packets reported as first there is a reset. */
  lemma FirstAddrOncePerReset(login: string, h: History, i: nat, j: nat)
    requires i < j < |h| && h[i].Packet? && h[j].Packet?
    requires VerdictAt(login, h, i) == FirstAddr == VerdictAt(login, h, j)
    ensures exists k :: i < k < j && h[k].Reset?
  {
    FirstAddrIsFirstAccepted(login, h, j);
    var before := h[..j];
    var r :| 0 <= r <= |before| && NoneSince(login, before, r);
    AcceptedAtPrefix(login, h, j);
    assert AcceptedAt(login, before, i);
    assert r > i + 1;
    assert h[r - 1].Reset?;
  }

  lemma {:induction false} UdpPinned(login: string, h: History, i: nat)
    requires AcceptedAt(login, h, i) && h[i].from.UdpPeer?
    requires forall k :: i < k < |h| ==> h[k].Packet?
    ensures After(login, h).addr.Some? && After(login, h).addr.value.ip == h[i].from.addr.ip
    decreases |h|
  {
    var n := |h| - 1;
    if i < n {
      AcceptedAtPrefix(login, h, n);
      UdpPinned(login, h[..n], i);
    }
  }

  /** All UDP packets accepted between two resets come from one IP. */
  lemma UdpSourcesShareIp(login: string, h: History, i: nat, j: nat)
    requires i < j && AcceptedAt(login, h, i) && AcceptedAt(login, h, j)
    requires h[i].from.UdpPeer? && h[j].from.UdpPeer?
    requires forall k :: i < k < j ==> h[k].Packet?
    ensures h[i].from.addr.ip == h[j].from.addr.ip
  {
    AcceptedAtPrefix(login, h, j);
    UdpPinned(login, h[..j], i);
  }

  lemma TcpPinStep(p: PlayerInfo, from: Endpoint, now: Time)
    requires p.tcpIp.Some? && p.tcpConn.Some?
    requires Receive(p, from, now).1.Passes() ==> from.TcpPeer?
    ensures Receive(p, from, now).0.tcpIp == p.tcpIp && Receive(p, from, now).0.tcpConn.Some?
  {
  }

  lemma {:induction false} TcpPinned(login: string, h: History, i: nat)
    requires AcceptedAt(login, h, i) && h[i].from.TcpPeer? && h[i].from.conn.ip.Some?
    requires forall k :: i < k < |h| ==> h[k].Packet? && (AcceptedAt(login, h, k) ==> h[k].from.TcpPeer?)
    ensures After(login, h).tcpIp == h[i].from.conn.ip && After(login, h).tcpConn.Some?
    decreases |h|
  {
    var n := |h| - 1;
    if i < n {
      AcceptedAtPrefix(login, h, n);
      TcpPinned(login, h[..n], i);
      assert h[n].Packet?;
      TcpPinStep(After(login, h[..n]), h[n].from, h[n].now);
    }
  }

  /** Until a reset or an accepted UDP packet, TCP packets are accepted only from the IP first seen. */
  lemma TcpSourcesShareIp(login: string, h: History, i: nat, j: nat)
    requires i < j && AcceptedAt(login, h, i) && AcceptedAt(login, h, j)
    requires h[i].from.TcpPeer? && h[i].from.conn.ip.Some? && h[j].from.TcpPeer?
    requires forall k :: i < k < j ==> h[k].Packet? && (AcceptedAt(login, h, k) ==> h[k].from.TcpPeer?)
    ensures h[j].from.conn.ip == h[i].from.conn.ip
  {
    AcceptedAtPrefix(login, h, j);
    TcpPinned(login, h[..j], i);
  }

  // ---------------------------------------------------------------- spoofing

  /** The address a source is known by, without its port. */
  function IpOf(e: Endpoint): Option<Ip> {
    match e
    case UdpPeer(a) => Some(a.ip)
    case TcpPeer(c) => c.ip
  }

  /** Packet `k` still ties its transport to its IP at the end of the history: it was accepted and nothing since has undone that. */
  ghost predicate Pins(login: string, h: History, k: nat) {
    && AcceptedAt(login, h, k) && IpOf(h[k].from).Some?
    && forall j :: k < j < |h| ==>
         h[j].Packet? && (h[k].from.TcpPeer? && AcceptedAt(login, h, j) ==> h[j].from.TcpPeer?)
  }

  lemma PinsExtends(login: string, h: History, k: nat)
    requires h != [] && Pins(login, h[..|h| - 1], k) && h[|h| - 1].Packet?
    requires h[k].from.TcpPeer? && AcceptedAt(login, h, |h| - 1) ==> h[|h| - 1].from.TcpPeer?
    ensures Pins(login, h, k)
  {
    AcceptedAtPrefix(login, h, |h| - 1);
  }

  /** The address field holds something only because of an accepted UDP packet. */
  lemma {:induction false} UdpPin(login: string, h: History) returns (k: Option<nat>)
    ensures k.None? ==> After(login, h).addr.None?
    ensures k.Some? ==> Pins(login, h, k.value) && h[k.value].from.UdpPeer?
    decreases |h|
  {
    if h == [] || h[|h| - 1].Reset? {
      return None;
    }
    var n := |h| - 1;
    if AcceptedAt(login, h, n) && h[n].from.UdpPeer? {
      return Some(n);
    }
    k := UdpPin(login, h[..n]);
    if k.Some? {
      PinsExtends(login, h, k.value);
    }
  }

  lemma {:induction false} TcpIpHasConn(login: string, h: History)
    ensures After(login, h).tcpIp.Some? ==> After(login, h).tcpConn.Some?
    decreases |h|
  {
    if h != [] {
      TcpIpHasConn(login, h[..|h| - 1]);
    }
  }

  /** The TCP address field holds something only because of an accepted frame from a known IP, with no UDP packet accepted since. */
  lemma {:induction false} TcpPin(login: string, h: History) returns (k: Option<nat>)
    ensures k.None? ==> After(login, h).tcpIp.None?
    ensures k.Some? ==> Pins(login, h, k.value) && h[k.value].from.TcpPeer?
    decreases |h|
  {
    if h == [] || h[|h| - 1].Reset? {
      return None;
    }
    var n := |h| - 1;
    TcpIpHasConn(login, h[..n]);
    if AcceptedAt(login, h, n) && h[n].from.UdpPeer? {
      return None;
    }
    if AcceptedAt(login, h, n) && h[n].from.conn.ip.Some? {
      return Some(n);
    }
    k := TcpPin(login, h[..n]);
    if k.Some? {
      PinsExtends(login, h, k.value);
    }
  }

  /** A packet over the same transport, still pinning it when packet `i` comes, was accepted from another IP than that of `i`. */
  ghost predicate FromElsewhere(login: string, h: History, i: nat)
    requires i < |h| && h[i].Packet?
  {
    exists k: nat ::
      && k < i && Pins(login, h[..i], k)
      && (h[k].from.UdpPeer? <==> h[i].from.UdpPeer?) && IpOf(h[k].from) != IpOf(h[i].from)
  }

  /** A packet is refused as spoofed exactly when it comes from another IP than the one its transport is tied to; ports do not matter. */
  lemma SpoofedIff(login: string, h: History, i: nat)
    requires i < |h| && h[i].Packet?
    ensures VerdictAt(login, h, i) == Spoofed <==> FromElsewhere(login, h, i)
  {
    var before := h[..i];
    if h[i].from.UdpPeer? {
      var pin := UdpPin(login, before);
      forall k: nat | k < i && Pins(login, before, k) && h[k].from.UdpPeer?
        ensures After(login, before).addr.Some? && Some(After(login, before).addr.value.ip) == IpOf(h[k].from)
      {
        UdpPinned(login, before, k);
      }
    } else {
      var pin := TcpPin(login, before);
      forall k: nat | k < i && Pins(login, before, k) && h[k].from.TcpPeer?
        ensures After(login, before).tcpIp == IpOf(h[k].from)
      {
        TcpPinned(login, before, k);
      }
    }
    hide After, AcceptedAt, Learn;
  }

  /** Every packet of a registered player is accepted, refused as spoofed, or limited. */
  lemma AcceptedOrWhyNot(login: string, h: History, i: nat)
    requires i < |h| && h[i].Packet?
    ensures AcceptedAt(login, h, i) <==> VerdictAt(login, h, i) != Spoofed && VerdictAt(login, h, i) != RateLimited
  {
  }

  // ---------------------------------------------------------------- rate limit

  /** Packets of one second that were not refused as spoofed. */
  function Checked(login: string, h: History, second: int): nat {
    if h == [] then 0
    else
      var n := |h| - 1;
      Checked(login, h[..n], second) +
      if h[n].Packet? && UnixSecond(h[n].now) == second && VerdictAt(login, h, n) != Spoofed then 1 else 0
  }

  /** Packets accepted in the seconds from..to. */
  function AcceptedIn(login: string, h: History, from: int, to: int): nat {
    if h == [] then 0
    else
      var n := |h| - 1;
      AcceptedIn(login, h[..n], from, to) +
      if AcceptedAt(login, h, n) && from <= UnixSecond(h[n].now) <= to then 1 else 0
  }

  /** No packet of the history is dated after `second`. */
  ghost predicate NotAfter(h: History, second: int) {
    forall i :: 0 <= i < |h| && h[i].Packet? ==> UnixSecond(h[i].now) <= second
  }

  ghost predicate SecondsNondecreasing(h: History) {
    forall i, j :: 0 <= i < j < |h| && h[i].Packet? && h[j].Packet? ==> UnixSecond(h[i].now) <= UnixSecond(h[j].now)
  }

  lemma {:induction false} CounterNotAhead(login: string, h: History, second: int)
    requires NotAfter(h, second)
    ensures After(login, h).ratePkts == 0 || After(login, h).rateSecond <= second
    decreases |h|
  {
    if h != [] {
      var n := |h| - 1;
      CounterNotAhead(login, h[..n], second);
      assert h[n].Packet? ==> UnixSecond(h[n].now) <= second;
    }
  }

  function Counter(p: PlayerInfo, second: int): u32 {
    if p.rateSecond == second then p.ratePkts else 0
  }

  /** What one packet does to the counter of any second not before its own. */
  lemma CounterStep(p: PlayerInfo, from: Endpoint, now: Time, second: int)
    requires UnixSecond(now) <= second
    requires UnixSecond(now) < second ==> Counter(p, second) == 0
    ensures Counter(Receive(p, from, now).0, second) ==
            if UnixSecond(now) == second && Receive(p, from, now).1 != Spoofed then Increment32(Counter(p, second))
            else Counter(p, second)
  {
  }

  lemma CountModulo(n: nat)
    ensures (n + 1) % 0x1_0000_0000 == Increment32(n % 0x1_0000_0000)
    ensures n < 0x1_0000_0000 ==> n % 0x1_0000_0000 == n
  {
  }

  /** The counter holds, modulo its width, the number of packets checked in the second it stands for. */
  lemma {:induction false} CounterCounts(login: string, h: History, second: int)
    requires SecondsNondecreasing(h) && NotAfter(h, second)
    ensures Checked(login, h, second) % 0x1_0000_0000 == Counter(After(login, h), second)
    decreases |h|
  {
    if h != [] {
      var n := |h| - 1;
      var before, e := h[..n], h[n];
      CounterCounts(login, before, second);
      if e.Packet? {
        CountModulo(Checked(login, before, second));
        if UnixSecond(e.now) < second {
          CounterNotAhead(login, before, UnixSecond(e.now));
        }
        CounterStep(After(login, before), e.from, e.now, second);
        hide Receive, CheckRate;
      }
    }
  }

  lemma LimitedByCounter(p: PlayerInfo, from: Endpoint, now: Time)
    requires Counter(p, UnixSecond(now)) < 0x1_0000_0000 - 1
    ensures Receive(p, from, now).1 == RateLimited <==>
            Receive(p, from, now).1 != Spoofed && Counter(p, UnixSecond(now)) >= 2000
  {
  }

  lemma LimitedIff(login: string, h: History, i: nat)
    requires i < |h| && h[i].Packet? && SecondsNondecreasing(h)
    requires Checked(login, h[..i], UnixSecond(h[i].now)) < 0x1_0000_0000 - 1
    ensures VerdictAt(login, h, i) == RateLimited <==>
            VerdictAt(login, h, i) != Spoofed && Checked(login, h[..i], UnixSecond(h[i].now)) >= 2000
  {
    var before, second := h[..i], UnixSecond(h[i].now);
    CounterCounts(login, before, second);
    CountModulo(Checked(login, before, second));
    LimitedByCounter(After(login, before), h[i].from, h[i].now);
    hide After, Checked, Receive;
  }

  /**
   With a clock that does not step back, a packet is limited exactly when it is not refused as spoofed and 2000 packets
   that were not either came before it in its second.
   */
  lemma RateLimitIsExact(login: string, h: History, i: nat)
    requires i < |h| && h[i].Packet? && SecondsNondecreasing(h)
    requires Checked(login, h[..i], UnixSecond(h[i].now)) < 0x1_0000_0000 - 1
    ensures VerdictAt(login, h, i) == RateLimited <==>
            !FromElsewhere(login, h, i) && Checked(login, h[..i], UnixSecond(h[i].now)) >= 2000
  {
    hide FromElsewhere, VerdictAt, Checked;
    SpoofedIff(login, h, i);
    LimitedIff(login, h, i);
  }

  ghost predicate CounterNeverWraps(login: string, h: History) {
    forall second :: Checked(login, h, second) < 0x1_0000_0000
  }

  lemma PrefixNeverWraps(login: string, h: History)
    requires h != [] && CounterNeverWraps(login, h)
    ensures CounterNeverWraps(login, h[..|h| - 1])
  {
    var before := h[..|h| - 1];
    forall second: int
      ensures Checked(login, before, second) < 0x1_0000_0000
    {
      assert Checked(login, h, second) < 0x1_0000_0000;
    }
  }

  lemma {:induction false} OneSecondIsBounded(login: string, h: History, second: int)
    requires SecondsNondecreasing(h) && CounterNeverWraps(login, h)
    ensures AcceptedIn(login, h, second, second) <= MAX_PACKETS_PER_SECOND
    ensures AcceptedIn(login, h, second, second) <= Checked(login, h, second)
    decreases |h|
  {
    if h != [] {
      var n := |h| - 1;
      PrefixNeverWraps(login, h);
      OneSecondIsBounded(login, h[..n], second);
      if AcceptedAt(login, h, n) && UnixSecond(h[n].now) == second {
        assert Checked(login, h, second) == Checked(login, h[..n], second) + 1;
        LimitedIff(login, h, n);
      }
    }
  }

  lemma {:induction false} WindowSplits(login: string, h: History, from: int, mid: int, to: int)
    requires from <= mid < to
    ensures AcceptedIn(login, h, from, to) == AcceptedIn(login, h, from, mid) + AcceptedIn(login, h, mid + 1, to)
    decreases |h|
  {
    if h != [] {
      WindowSplits(login, h[..|h| - 1], from, mid, to);
    }
  }

  /** Any window of m seconds lets at most 2000 * m packets of one registration through. */
  lemma {:induction false} WindowIsBounded(login: string, h: History, first: int, m: nat)
    requires m > 0 && SecondsNondecreasing(h) && CounterNeverWraps(login, h)
    ensures AcceptedIn(login, h, first, first + m - 1) <= MAX_PACKETS_PER_SECOND * m
    decreases m
  {
    OneSecondIsBounded(login, h, first + m - 1);
    if m > 1 {
      WindowSplits(login, h, first, first + m - 2, first + m - 1);
      WindowIsBounded(login, h, first, m - 1);
    }
  }
}
