/**
 The state shared by the restart callbacks of one ICE peer: a failure counter, a frozen connection
 duration and the time of the last connection. Callbacks run concurrently; each passes once through
 the protected section, and the history is the order in which they do.
 */
module RestartBudget {
  import opened Bytes

  /** Times and durations in nanoseconds. */
  type Time = int

  const SECOND: Time := 1_000_000_000
  const STABLE: Time := 60 * SECOND
  const SHORT_LIVED: Time := 45 * SECOND
  const MAX_BACKOFF: Time := 16 * SECOND
  const MAX_ATTEMPTS := 5

  datatype Budget = Budget(failures: nat, snapshot: Time, connectedAt: Option<Time>)

  const FRESH := Budget(0, 0, None)

  datatype Event = Connected(now: Time) | Restart(manual: bool, self: bool, now: Time)

  /** The protected section: afterwards `failures` is the attempt number and `snapshot` the duration to judge by. */
  function Enter(b: Budget, manual: bool, now: Time): Budget {
    var failures := if manual then 0 else b.failures;
    var snapshot := if b.connectedAt.Some? then now - b.connectedAt.value else if manual then 0 else b.snapshot;
    if snapshot >= STABLE then Budget(1, 0, None) else Budget(failures + 1, snapshot, None)
  }

  function Apply(b: Budget, e: Event): Budget {
    match e
    case Connected(now) => b.(connectedAt := Some(now))
    case Restart(manual, _, now) => Enter(b, manual, now)
  }

  type History = seq<Event>

  function After(h: History): Budget {
    if h == [] then FRESH else Apply(After(h[..|h| - 1]), h[|h| - 1])
  }

  /** The attempt number given to the restart at `i`. */
  function Attempt(h: History, i: nat): nat
    requires i < |h|
  {
    After(h[..i + 1]).failures
  }

  /** The connection duration the restart at `i` judges by. */
  function Duration(h: History, i: nat): Time
    requires i < |h|
  {
    After(h[..i + 1]).snapshot
  }

  function PowerOfTwo(n: nat): nat {
    if n == 0 then 1 else 2 * PowerOfTwo(n - 1)
  }

  function Backoff(attempt: nat): Time {
    var b := PowerOfTwo(attempt) * (SECOND / 2);
    if b > MAX_BACKOFF then MAX_BACKOFF else b
  }

  datatype Decision = GiveUp | Wait(delay: Time) | Proceed

  /** What a callback does after the protected section: only restarts of our own wait. */
  function Decide(attempt: nat, manual: bool, self: bool): Decision {
    if attempt > MAX_ATTEMPTS then GiveUp
    else if self && !manual then Wait(Backoff(attempt))
    else Proceed
  }

  /** Whether the new peer is restricted to relay candidates. */
  predicate RelayOnly(duration: Time) {
    0 < duration < SHORT_LIVED
  }

  // ---------------------------------------------------------------- in place

  class Guard {
    var consecutiveFailures: nat
    var sinceConnectedSnapshot: Time
    var lastConnectedAt: Option<Time>

    function View(): Budget
      reads this
    {
      Budget(consecutiveFailures, sinceConnectedSnapshot, lastConnectedAt)
    }

    constructor ()
      ensures View() == FRESH
    {
      consecutiveFailures, sinceConnectedSnapshot, lastConnectedAt := 0, 0, None;
    }

    method OnConnected(now: Time)
      modifies this
      ensures View() == Apply(old(View()), Connected(now))
    {
      lastConnectedAt := Some(now);
    }

    /** One pass through the protected section. */
    method Pass(manual: bool, now: Time) returns (attempt: nat, duration: Time)
      modifies this
      ensures View() == Enter(old(View()), manual, now)
      ensures attempt == View().failures && duration == View().snapshot
    {
      if manual {
        consecutiveFailures := 0;
        sinceConnectedSnapshot := 0;
      }
      if lastConnectedAt.Some? {
        sinceConnectedSnapshot := now - lastConnectedAt.value;
        lastConnectedAt := None;
      }
      if sinceConnectedSnapshot >= STABLE {
        consecutiveFailures := 0;
        sinceConnectedSnapshot := 0;
      }
      consecutiveFailures := consecutiveFailures + 1;
      attempt, duration := consecutiveFailures, sinceConnectedSnapshot;
    }

    /** The callback up to its wait: what it decides, and whether a new peer is to use relay candidates only. */
    method Plan(manual: bool, self: bool, now: Time) returns (decision: Decision, relayOnly: bool)
      modifies this
      ensures View() == Enter(old(View()), manual, now)
      ensures decision == Decide(View().failures, manual, self)
      ensures relayOnly == RelayOnly(View().snapshot)
    {
      var attempt, duration := Pass(manual, now);
      relayOnly := duration > 0 && duration < SHORT_LIVED;
      if attempt > MAX_ATTEMPTS {
        return GiveUp, relayOnly;
      }
      if self && !manual {
        var backoff := PowerOfTwo(attempt) * (SECOND / 2);
        if backoff > MAX_BACKOFF {
          backoff := MAX_BACKOFF;
        }
        decision := Wait(backoff);
      } else {
        decision := Proceed;
      }
    }
  }

  // ---------------------------------------------------------------- the duration

  /** `c` is the latest connection before position `n`. */
  ghost predicate LatestConnection(h: History, n: nat, c: nat) {
    c < n <= |h| && h[c].Connected? && forall k :: c < k < n ==> h[k].Restart?
  }

  ghost predicate NeverConnected(h: History, n: nat) {
    forall k :: 0 <= k < n <= |h| ==> h[k].Restart?
  }

  lemma {:induction false} LatestOrNever(h: History, n: nat)
    requires n <= |h|
    ensures NeverConnected(h, n) || exists c: nat :: LatestConnection(h, n, c)
  {
    if n > 0 {
      if h[n - 1].Connected? {
        assert LatestConnection(h, n, n - 1);
      } else {
        LatestOrNever(h, n - 1);
        if !NeverConnected(h, n - 1) {
          var c: nat :| LatestConnection(h, n - 1, c);
          assert LatestConnection(h, n, c);
        }
      }
    }
  }

  /** `m` is a manual restart after `f` and before position `n`. */
  ghost predicate ClearedBefore(h: History, f: nat, n: nat) {
    exists m :: f < m < n <= |h| && h[m].Restart? && h[m].manual
  }

  /** What the state must be at position `n`, in terms of what happened before it. */
  ghost predicate Explains(h: History, n: nat, b: Budget) {
    && (forall c: nat :: LatestConnection(h, n, c) ==>
          if c + 1 == n then b.connectedAt == Some(h[c].now)
          else
            var age := h[c + 1].now - h[c].now;
            && b.connectedAt == None
            && b.snapshot == (if age >= STABLE || ClearedBefore(h, c + 1, n) then 0 else age))
    && (NeverConnected(h, n) ==> b.connectedAt == None && b.snapshot == 0)
    && b.snapshot < STABLE
  }

  lemma ExplainsConnection(h: History, n: nat, b: Budget)
    requires n < |h| && h[n].Connected?
    requires b.snapshot < STABLE
    ensures Explains(h, n + 1, b.(connectedAt := Some(h[n].now)))
  {
    var next := n + 1;
    assert LatestConnection(h, next, n) && !NeverConnected(h, next);
    forall c: nat | LatestConnection(h, next, c)
      ensures c == n
    {
    }
  }

  lemma LatestBeforeRestart(h: History, n: nat, c: nat)
    requires n < |h| && h[n].Restart?
    ensures LatestConnection(h, n + 1, c) <==> LatestConnection(h, n, c)
  {
  }

  lemma ClearedGrows(h: History, f: nat, n: nat)
    requires f < n < |h| && h[n].Restart?
    ensures ClearedBefore(h, f, n + 1) <==> ClearedBefore(h, f, n) || h[n].manual
  {
  }

  lemma ExplainsRestart(h: History, n: nat, b: Budget)
    requires n < |h| && h[n].Restart? && Explains(h, n, b)
    ensures Explains(h, n + 1, Enter(b, h[n].manual, h[n].now))
  {
    var e, next := Enter(b, h[n].manual, h[n].now), n + 1;
    forall c: nat | LatestConnection(h, next, c)
      ensures e.connectedAt == None
      ensures var age := h[c + 1].now - h[c].now;
        e.snapshot == (if age >= STABLE || ClearedBefore(h, c + 1, next) then 0 else age)
    {
      LatestBeforeRestart(h, n, c);
      if c + 1 < n {
        ClearedGrows(h, c + 1, n);
      }
    }
  }

  lemma {:induction false} StateIsExplained(h: History, n: nat)
    requires n <= |h|
    ensures Explains(h, n, After(h[..n]))
  {
    if n == 0 {
    } else {
      StateIsExplained(h, n - 1);
      assert h[..n][..n - 1] == h[..n - 1];
      if h[n - 1].Connected? {
        ExplainsConnection(h, n - 1, After(h[..n - 1]));
      } else {
        ExplainsRestart(h, n - 1, After(h[..n - 1]));
      }
    }
  }

  /**
   A restart judges by the age the latest connection had at the first restart after it, whatever restarts follow; the age
   counts for nothing once it was a stable one or a later manual restart cleared it, and before any connection.
   */
  lemma DurationIsFrozenAge(h: History, i: nat)
    requires i < |h| && h[i].Restart?
    ensures forall c: nat :: LatestConnection(h, i, c) ==>
      var age := h[c + 1].now - h[c].now;
      Duration(h, i) == if age >= 60_000_000_000 || ClearedBefore(h, c + 1, i + 1) then 0 else age
    ensures NeverConnected(h, i) ==> Duration(h, i) == 0
  {
    StateIsExplained(h, i + 1);
    forall c: nat | LatestConnection(h, i, c)
      ensures var age := h[c + 1].now - h[c].now;
        Duration(h, i) == if age >= STABLE || ClearedBefore(h, c + 1, i + 1) then 0 else age
    {
      LatestBeforeRestart(h, i, c);
    }
  }

  /** `c` is the latest connection, it broke within 45 seconds, and no later manual restart up to `i` cleared that. */
  ghost predicate BrokeEarly(h: History, i: nat, c: nat) {
    && i < |h| && LatestConnection(h, i, c)
    && 0 < h[c + 1].now - h[c].now < 45_000_000_000
    && !ClearedBefore(h, c + 1, i + 1)
  }

  /** A restart asks for relay candidates only exactly when the latest connection broke early. */
  lemma RelayOnlyIff(h: History, i: nat)
    requires i < |h| && h[i].Restart?
    ensures RelayOnly(Duration(h, i)) <==> exists c: nat :: BrokeEarly(h, i, c)
  {
    DurationIsFrozenAge(h, i);
    LatestOrNever(h, i);
    if !NeverConnected(h, i) {
      var c: nat :| LatestConnection(h, i, c);
      assert RelayOnly(Duration(h, i)) <==> BrokeEarly(h, i, c);
      forall c': nat | BrokeEarly(h, i, c')
        ensures c' == c
      {
        OnlyOneLatest(h, i, c, c');
      }
    }
  }

  lemma OnlyOneLatest(h: History, n: nat, c: nat, c': nat)
    requires LatestConnection(h, n, c) && LatestConnection(h, n, c')
    ensures c == c'
  {
  }

  // ---------------------------------------------------------------- the budget

  /** What the restart at `i` decides. */
  function DecisionAt(h: History, i: nat): Decision
    requires i < |h| && h[i].Restart?
  {
    Decide(Attempt(h, i), h[i].manual, h[i].self)
  }

  /** A restart resets the budget when it is manual, or the first one after a connection that lasted long enough. */
  ghost predicate IsReset(h: History, i: nat) {
    && i < |h| && h[i].Restart?
    && (h[i].manual || (i > 0 && h[i - 1].Connected? && h[i].now - h[i - 1].now >= 60_000_000_000))
  }

  /** Every restart is numbered one more than the restart before it, unless it resets the budget. */
  lemma AttemptsCountUp(h: History, i: nat)
    requires i < |h| && h[i].Restart?
    ensures Attempt(h, i) == if IsReset(h, i) then 1 else After(h[..i]).failures + 1
  {
    StateIsExplained(h, i);
    assert h[..i + 1][..i] == h[..i];
    LatestOrNever(h, i);
    if i > 0 && h[i - 1].Connected? {
      assert LatestConnection(h, i, i - 1);
    } else if !NeverConnected(h, i) {
      var c: nat :| LatestConnection(h, i, c);
    }
  }

  function RestartsIn(h: History, from: nat, n: nat): nat
    requires from <= n <= |h|
    decreases n
  {
    if n == from then 0 else RestartsIn(h, from, n - 1) + if h[n - 1].Restart? then 1 else 0
  }

  /** Since a reset, or since the beginning, the counter is the number of restarts; so the attempt numbers are 1, 2, 3, ... */
  lemma {:induction false} RestartsAreNumbered(h: History, from: nat, n: nat)
    requires from < n <= |h| && (from == 0 || IsReset(h, from)) && forall i :: from < i < n ==> !IsReset(h, i)
    ensures After(h[..n]).failures == RestartsIn(h, from, n)
    decreases n
  {
    assert h[..n][..n - 1] == h[..n - 1];
    if h[n - 1].Restart? {
      AttemptsCountUp(h, n - 1);
    }
    if from + 1 < n {
      RestartsAreNumbered(h, from, n - 1);
    } else {
      assert RestartsIn(h, from, from) == 0;
    }
  }

  /** `from` is where the count of the restart at `i` begins: its latest reset, or the beginning if there was none. */
  ghost predicate CountsFrom(h: History, from: nat, i: nat) {
    from <= i < |h| && (from == 0 || IsReset(h, from)) && forall k :: from < k <= i ==> !IsReset(h, k)
  }

  lemma {:induction false} CountBegins(h: History, i: nat) returns (from: nat)
    requires i < |h|
    ensures CountsFrom(h, from, i)
  {
    if i == 0 || IsReset(h, i) {
      from := i;
    } else {
      from := CountBegins(h, i - 1);
    }
  }

  /**
   What every restart decides: the sixth and later ones since the count began give up; of the first five those of our own
   that nobody asked for wait 1, 2, 4, 8 and 16 seconds, and all others go on at once.
   */
  lemma DecisionIsByCount(h: History, from: nat, i: nat)
    requires CountsFrom(h, from, i) && h[i].Restart?
    ensures var k := RestartsIn(h, from, i + 1);
      && k >= 1
      && DecisionAt(h, i) ==
         if k > 5 then GiveUp
         else if h[i].self && !h[i].manual then Wait([1, 2, 4, 8, 16][k - 1] * 1_000_000_000)
         else Proceed
  {
    RestartsAreNumbered(h, from, i + 1);
    var k := RestartsIn(h, from, i + 1);
    assert k == Attempt(h, i);
    hide RestartsIn, After, IsReset;
    if k <= 5 {
      BackoffDoubles(k);
      PowersByHand();
      hide PowerOfTwo, Backoff;
    }
  }

  lemma PowersByHand()
    ensures PowerOfTwo(0) == 1 && PowerOfTwo(1) == 2 && PowerOfTwo(2) == 4 && PowerOfTwo(3) == 8 && PowerOfTwo(4) == 16
  {
  }

  function PassedIn(h: History, from: nat, n: nat): nat
    requires from <= n <= |h|
    decreases n
  {
    if n == from then 0
    else PassedIn(h, from, n - 1) + if h[n - 1].Restart? && !DecisionAt(h, n - 1).GiveUp? then 1 else 0
  }

  /** All the waiting ordered by the restarts of a window. */
  function WaitedIn(h: History, from: nat, n: nat): Time
    requires from <= n <= |h|
    decreases n
  {
    if n == from then 0
    else
      WaitedIn(h, from, n - 1) +
      if h[n - 1].Restart? && DecisionAt(h, n - 1).Wait? then DecisionAt(h, n - 1).delay else 0
  }

  function AtMost5(n: nat): nat {
    if n > MAX_ATTEMPTS then MAX_ATTEMPTS else n
  }

  /** Attempt k waits 2^(k-1) seconds: 1, 2, 4, 8, 16. */
  lemma BackoffDoubles(k: nat)
    requires 1 <= k <= MAX_ATTEMPTS
    ensures Backoff(k) == PowerOfTwo(k - 1) * SECOND
  {
  }

  lemma {:induction false} WindowUpTo(h: History, from: nat, n: nat)
    requires from <= n <= |h| && forall i :: from < i < n ==> !IsReset(h, i)
    ensures PassedIn(h, from, n) <= AtMost5(After(h[..n]).failures)
    ensures WaitedIn(h, from, n) <= (PowerOfTwo(AtMost5(After(h[..n]).failures)) - 1) * SECOND
    decreases n
  {
    if from < n {
      WindowUpTo(h, from, n - 1);
      assert h[..n][..n - 1] == h[..n - 1];
      var e, before := h[n - 1], After(h[..n - 1]).failures;
      if e.Restart? {
        AttemptsCountUp(h, n - 1);
        var attempt := Attempt(h, n - 1);
        if attempt <= MAX_ATTEMPTS {
          BackoffDoubles(attempt);
          if attempt == 1 {
            assert n - 1 == from || before == 0;
          }
          assert PowerOfTwo(attempt) == 2 * PowerOfTwo(attempt - 1);
        }
      }
    }
  }

  lemma PowersUpToFive(k: nat)
    requires k <= MAX_ATTEMPTS
    ensures PowerOfTwo(k) <= 32
  {
    if k == 0 {} else if k == 1 {} else if k == 2 {} else if k == 3 {} else if k == 4 { assert PowerOfTwo(4) == 16; }
    else { assert PowerOfTwo(5) == 32; }
  }

  /** Between two resets at most five restarts pass the limit, and together they wait at most 31 seconds. */
  lemma BudgetBetweenResets(h: History, from: nat, n: nat)
    requires from <= n <= |h| && forall i :: from < i < n ==> !IsReset(h, i)
    ensures PassedIn(h, from, n) <= MAX_ATTEMPTS
    ensures WaitedIn(h, from, n) <= 31 * SECOND
  {
    WindowUpTo(h, from, n);
    PowersUpToFive(AtMost5(After(h[..n]).failures));
  }
}
