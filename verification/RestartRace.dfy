/**
 Restart callbacks of ICE peers running beside everything else that touches the peers. A callback
 passes its protected section, and gives up, goes on, or waits. A restart of our own waits: it
 remembers the registered peer, sleeps, and looks again, and only if the very same peer object is
 still registered does it go on to replace it. Passing, looking, looking again and replacing are
 separate steps, with any steps of others in between.
 */
module RestartRace {
  import opened Bytes
  import opened PeerTable
  import Budget = RestartBudget

  type Thread = nat

  /** The callbacks of one player share their state; a new connection of the player may bring a new callback. */
  type Callback = nat

  /** `waited` tells a restart of our own, which looks twice, from the others. */
  datatype Phase =
    | Waiting(pid: PlayerId)
    | Sleeping(pid: PlayerId, before: Option<Identity>)
    | Replacing(pid: PlayerId, waited: bool)
    | Ended

  /** Where a thread passed: the callback, and the position in its history. */
  datatype Entry = Entry(callback: Callback, position: nat)

  datatype World = World(
    table: Table,
    threads: map<Thread, Phase>,
    histories: map<Callback, Budget.History>,
    entries: map<Thread, Entry>,
    carried: set<Thread>)

  function HistoryOf(w: World, cb: Callback): Budget.History {
    if cb in w.histories then w.histories[cb] else []
  }

  /** The peer object registered for `pid`, or none. */
  function Registered(t: Table, pid: PlayerId): Option<Identity> {
    if pid in t.icePeers then Some(t.icePeers[pid].identity) else None
  }

  datatype Action =
    | Other(event: Event)
    | Connect(callback: Callback, now: Budget.Time)
    | Pass(thread: Thread, callback: Callback, player: PlayerId, manual: bool, self: bool, now: Budget.Time)
    | Snapshot(thread: Thread)
    | Recheck(thread: Thread)
    | Cancel(thread: Thread)
    | Carry(thread: Thread, binds: bool, agent: bool)

  predicate Enabled(w: World, a: Action) {
    match a
    case Other(_) => true
    case Connect(_, _) => true
    case Pass(i, _, _, _, _, _) => i !in w.threads
    case Snapshot(i) => i in w.threads && w.threads[i].Waiting?
    case Recheck(i) => i in w.threads && w.threads[i].Sleeping?
    case Cancel(i) => i in w.threads && w.threads[i].Sleeping?
    case Carry(i, _, _) => i in w.threads && w.threads[i].Replacing?
  }

  /** The phase a decision leads to. */
  function Start(d: Budget.Decision, pid: PlayerId): Phase {
    match d
    case GiveUp => Ended
    case Wait(_) => Waiting(pid)
    case Proceed => Replacing(pid, false)
  }

  function Act(w: World, a: Action): World
    requires Enabled(w, a)
  {
    match a
    case Other(e) => w.(table := Step(w.table, e))
    case Connect(cb, now) => w.(histories := w.histories[cb := HistoryOf(w, cb) + [Budget.Connected(now)]])
    case Pass(i, cb, pid, manual, self, now) =>
      var h := HistoryOf(w, cb) + [Budget.Restart(manual, self, now)];
      w.(histories := w.histories[cb := h], entries := w.entries[i := Entry(cb, |h| - 1)],
         threads := w.threads[i := Start(Budget.DecisionAt(h, |h| - 1), pid)])
    case Snapshot(i) =>
      var pid := w.threads[i].pid;
      w.(threads := w.threads[i := Sleeping(pid, Registered(w.table, pid))])
    case Recheck(i) =>
      var Sleeping(pid, before) := w.threads[i];
      var after := Registered(w.table, pid);
      w.(threads := w.threads[i := if after.None? || after != before then Ended else Replacing(pid, true)])
    case Cancel(i) => w.(threads := w.threads[i := Ended])
    case Carry(i, binds, agent) =>
      w.(table := ReplaceICEPeer(w.table, w.threads[i].pid, binds, agent), threads := w.threads[i := Ended],
         carried := w.carried + {i})
  }

  /** A run: one more state than actions, each state following from the one before. */
  datatype Trace = Trace(states: seq<World>, actions: seq<Action>)

  ghost predicate Follows(r: Trace, n: nat) {
    && n + 1 < |r.states| && n < |r.actions|
    && Enabled(r.states[n], r.actions[n]) && r.states[n + 1] == Act(r.states[n], r.actions[n])
  }

  ghost predicate IsRun(r: Trace) {
    && |r.states| == |r.actions| + 1
    && Inv(r.states[0].table)
    && forall n: nat :: n < |r.actions| ==> Follows(r, n)
  }

  lemma ActKeepsInv(w: World, a: Action)
    requires Enabled(w, a) && Inv(w.table)
    ensures Inv(Act(w, a).table)
  {
    hide Inv;
    match a
    case Other(e) => StepKeepsInv(w.table, e);
    case Carry(i, binds, agent) => ReplaceKeepsInv(w.table, w.threads[i].pid, binds, agent);
    case _ =>
  }

  lemma {:induction false} RunInv(r: Trace, n: nat)
    requires IsRun(r) && n < |r.states|
    ensures Inv(r.states[n].table)
  {
    if n > 0 {
      RunInv(r, n - 1);
      assert Follows(r, n - 1);
      ActKeepsInv(r.states[n - 1], r.actions[n - 1]);
      hide Inv, Act;
    }
  }

  /**
   Where a pass leads: over the limit it ends; a restart of our own that nobody asked for waits; one asked for by hand or by
   the other side goes on to replace the peer at once.
   */
  lemma PassLeads(w: World, a: Action, from: nat)
    requires Enabled(w, a) && a.Pass?
    requires var h := HistoryOf(w, a.callback) + [Budget.Restart(a.manual, a.self, a.now)]; Budget.CountsFrom(h, from, |h| - 1)
    ensures var h := HistoryOf(w, a.callback) + [Budget.Restart(a.manual, a.self, a.now)];
      var k := Budget.RestartsIn(h, from, |h|);
      && HistoryOf(Act(w, a), a.callback) == h && a.thread in Act(w, a).threads
      && Act(w, a).threads[a.thread] ==
         if k > 5 then Ended else if a.self && !a.manual then Waiting(a.player) else Replacing(a.player, false)
  {
    var h := HistoryOf(w, a.callback) + [Budget.Restart(a.manual, a.self, a.now)];
    Budget.DecisionIsByCount(h, from, |h| - 1);
    hide Budget.DecisionAt, Budget.RestartsIn, Budget.CountsFrom;
  }

  /** A replacement carried out puts a new object in the place of the registered one, with its socket. */
  lemma CarryReplaces(w: World, a: Action)
    requires Enabled(w, a) && a.Carry? && a.agent && Inv(w.table) && w.threads[a.thread].pid in w.table.icePeers
    ensures var pid, t, u := w.threads[a.thread].pid, w.table, Act(w, a).table;
      && Registered(u, pid).Some? && Registered(u, pid) != Registered(t, pid)
      && u.icePeers[pid].conn == t.icePeers[pid].conn && Open(u, u.icePeers[pid].conn)
  {
    ReplacementOutcome(w.table, w.threads[a.thread].pid, a.binds, a.agent);
    hide Inv;
  }

  // ---------------------------------------------------------------- the identity check

  /** Identities are handed out once: a step registers an object for `pid` only if it was registered there already or is new. */
  lemma StepIdentities(t: Table, e: Event, pid: PlayerId)
    ensures t.created <= Step(t, e).created
    ensures var after := Registered(Step(t, e), pid); after.None? || after == Registered(t, pid) || after.value >= t.created
  {
  }

  lemma ActIdentities(w: World, a: Action, pid: PlayerId)
    requires Enabled(w, a)
    ensures w.table.created <= Act(w, a).table.created
    ensures var after := Registered(Act(w, a).table, pid);
      after.None? || after == Registered(w.table, pid) || after.value >= w.table.created
  {
    match a
    case Other(e) => StepIdentities(w.table, e, pid);
    case Carry(i, binds, agent) => StepIdentities(w.table, Replace(w.threads[i].pid, binds, agent), pid);
    case _ =>
  }

  /** An object that is not registered for `pid` at one moment never is again. */
  lemma {:induction false} GoneStaysGone(r: Trace, i: nat, j: nat, pid: PlayerId, x: Identity)
    requires IsRun(r) && i <= j < |r.states|
    requires x < r.states[i].table.created && Registered(r.states[i].table, pid) != Some(x)
    ensures x < r.states[j].table.created && Registered(r.states[j].table, pid) != Some(x)
    decreases j
  {
    if i < j {
      GoneStaysGone(r, i, j - 1, pid, x);
      assert Follows(r, j - 1);
      ActIdentities(r.states[j - 1], r.actions[j - 1], pid);
      hide Act;
    }
  }

  lemma {:induction false} CreatedGrows(r: Trace, i: nat, j: nat)
    requires IsRun(r) && i <= j < |r.states|
    ensures r.states[i].table.created <= r.states[j].table.created
    decreases j
  {
    if i < j {
      CreatedGrows(r, i, j - 1);
      assert Follows(r, j - 1);
      ActIdentities(r.states[j - 1], r.actions[j - 1], 0);
      hide Act;
    }
  }

  /** From `i` to `j` the same peer object was registered for `pid` all the time: it was neither replaced nor removed. */
  ghost predicate Untouched(r: Trace, i: nat, j: nat, pid: PlayerId) {
    && i <= j < |r.states| && Registered(r.states[i].table, pid).Some?
    && forall k :: i <= k <= j ==> Registered(r.states[k].table, pid) == Registered(r.states[i].table, pid)
  }

  /** The comparison cannot be fooled: finding the object of moment `i` again at `j` means it was never away. */
  lemma SameObjectMeansUntouched(r: Trace, i: nat, j: nat, pid: PlayerId)
    requires IsRun(r) && i <= j < |r.states|
    ensures var before, after := Registered(r.states[i].table, pid), Registered(r.states[j].table, pid);
      after.Some? && after == before <==> Untouched(r, i, j, pid)
  {
    var before, after := Registered(r.states[i].table, pid), Registered(r.states[j].table, pid);
    if after.Some? && after == before {
      forall k | i <= k <= j
        ensures Registered(r.states[k].table, pid) == before
      {
        RunInv(r, i);
        CreatedGrows(r, i, k);
        if Registered(r.states[k].table, pid) != before {
          GoneStaysGone(r, k, j, pid, before.value);
        }
      }
    }
  }

  /** At `i` the thread took its first look, for `pid`. */
  ghost predicate Looked(r: Trace, thread: Thread, pid: PlayerId, i: nat) {
    && i < |r.actions| && i < |r.states| && r.actions[i] == Snapshot(thread)
    && thread in r.states[i].threads && r.states[i].threads[thread] == Waiting(pid)
  }

  lemma {:induction false} AsleepSince(r: Trace, thread: Thread, pid: PlayerId, i: nat, n: nat)
    requires IsRun(r) && i < n < |r.states| && Looked(r, thread, pid, i)
    ensures thread in r.states[n].threads && !r.states[n].threads[thread].Waiting?
    ensures r.states[n].threads[thread].Sleeping? ==>
              r.states[n].threads[thread] == Sleeping(pid, Registered(r.states[i].table, pid))
    decreases n
  {
    assert Follows(r, n - 1);
    if i < n - 1 {
      AsleepSince(r, thread, pid, i, n - 1);
    }
    hide Inv, Step, ReplaceICEPeer, Budget.DecisionAt;
  }

  /**
   A restart that looked at moment `i` and looks again at `j` goes on to replace the peer if and only if that peer was
   registered at `i` and stayed so: one replacement or removal in between, even followed by a new registration, stops it.
   */
  lemma RestartGoesOnIff(r: Trace, thread: Thread, pid: PlayerId, i: nat, j: nat)
    requires IsRun(r) && i < j < |r.actions| && Looked(r, thread, pid, i) && r.actions[j] == Recheck(thread)
    ensures thread in r.states[j + 1].threads
    ensures r.states[j + 1].threads[thread] == if Untouched(r, i, j, pid) then Replacing(pid, true) else Ended
  {
    AsleepSince(r, thread, pid, i, j);
    assert Follows(r, j);
    SameObjectMeansUntouched(r, i, j, pid);
    hide Untouched;
  }

  // ---------------------------------------------------------------- whole runs

  /** `thread` looked at `i`, looked again at `j`, both before `n`, and the peer was untouched in between. */
  ghost predicate Justified(r: Trace, thread: Thread, pid: PlayerId, i: nat, j: nat, n: nat) {
    i < j < n <= |r.actions| && Looked(r, thread, pid, i) && r.actions[j] == Recheck(thread) && Untouched(r, i, j, pid)
  }

  /** The restart of `thread` is one that does not wait: asked for by hand or by the other side. */
  ghost predicate NeedNotWait(r: Trace, thread: Thread, i: nat, n: nat) {
    i < n <= |r.actions| && r.actions[i].Pass? && r.actions[i].thread == thread && (r.actions[i].manual || !r.actions[i].self)
  }

  ghost predicate Explained(r: Trace, thread: Thread, n: nat)
    requires n < |r.states| && |r.states| == |r.actions| + 1
  {
    var threads := r.states[n].threads;
    thread in threads ==>
      match threads[thread]
      case Sleeping(pid, _) => exists i: nat :: i < n && Looked(r, thread, pid, i)
      case Replacing(pid, true) => exists i: nat, j: nat :: Justified(r, thread, pid, i, j, n)
      case Replacing(_, false) => exists i: nat :: NeedNotWait(r, thread, i, n)
      case _ => true
  }

  lemma RecheckExplained(r: Trace, thread: Thread, n: nat)
    requires IsRun(r) && n < |r.actions| && Explained(r, thread, n) && r.actions[n] == Recheck(thread)
    ensures Explained(r, thread, n + 1)
  {
    assert Follows(r, n);
    var pid := r.states[n].threads[thread].pid;
    var i: nat :| i < n && Looked(r, thread, pid, i);
    RestartGoesOnIff(r, thread, pid, i, n);
    hide Act, Looked;
    if Untouched(r, i, n, pid) {
      assert Justified(r, thread, pid, i, n, n + 1);
    }
  }

  /** What a step of another kind can do to the phase of `thread`. */
  lemma OtherPhases(w: World, a: Action, thread: Thread)
    requires Enabled(w, a) && a != Recheck(thread)
    ensures var after := Act(w, a).threads;
      thread in after ==>
        || (thread in w.threads && after[thread] == w.threads[thread])
        || after[thread] in {Ended} || after[thread].Waiting?
        || (a == Snapshot(thread) && thread in w.threads && w.threads[thread].Waiting? && after[thread].Sleeping? && after[thread].pid == w.threads[thread].pid)
        || (a.Pass? && a.thread == thread && (a.manual || !a.self) && after[thread].Replacing? && !after[thread].waited)
  {
    hide Step, ReplaceICEPeer;
  }

  lemma OtherExplained(r: Trace, thread: Thread, n: nat)
    requires IsRun(r) && n < |r.actions| && Explained(r, thread, n) && r.actions[n] != Recheck(thread)
    ensures Explained(r, thread, n + 1)
  {
    assert Follows(r, n);
    var w, a, next := r.states[n], r.actions[n], n + 1;
    OtherPhases(w, a, thread);
    hide Act, Enabled, Untouched;
    if thread in w.threads && thread in r.states[next].threads && r.states[next].threads[thread] == w.threads[thread] {
      match w.threads[thread]
      case Sleeping(pid, _) =>
        var i: nat :| i < n && Looked(r, thread, pid, i);
        assert i < next;
      case Replacing(pid, true) =>
        var i: nat, j: nat :| Justified(r, thread, pid, i, j, n);
        assert Justified(r, thread, pid, i, j, next);
      case Replacing(_, false) =>
        var i: nat :| NeedNotWait(r, thread, i, n);
        assert NeedNotWait(r, thread, i, next);
      case _ =>
    } else if a == Snapshot(thread) && thread in w.threads && w.threads[thread].Waiting? {
      assert Looked(r, thread, w.threads[thread].pid, n);
    } else if a.Pass? && a.thread == thread && (a.manual || !a.self) {
      assert NeedNotWait(r, thread, n, next);
    }
  }

  lemma {:induction false} AlwaysExplained(r: Trace, thread: Thread, n: nat)
    requires IsRun(r) && r.states[0].threads == map[] && n < |r.states|
    ensures Explained(r, thread, n)
  {
    if n > 0 {
      AlwaysExplained(r, thread, n - 1);
      if r.actions[n - 1] == Recheck(thread) {
        RecheckExplained(r, thread, n - 1);
      } else {
        OtherExplained(r, thread, n - 1);
      }
    }
  }

  /** In every run, a restart of our own replaces a peer only if that peer stayed registered from its first look to its second. */
  lemma ReplacesOnlyIfUntouched(r: Trace, n: nat)
    requires IsRun(r) && r.states[0].threads == map[] && n < |r.actions| && r.actions[n].Carry?
    ensures var thread := r.actions[n].thread;
      && thread in r.states[n].threads && r.states[n].threads[thread].Replacing?
      && var pid := r.states[n].threads[thread].pid;
      || (exists i: nat, j: nat :: Justified(r, thread, pid, i, j, n))
      || (exists i: nat :: NeedNotWait(r, thread, i, n))
  {
    AlwaysExplained(r, r.actions[n].thread, n);
    assert Follows(r, n);
    hide Act, Justified, NeedNotWait;
  }

  lemma {:induction false} EndedStaysEnded(r: Trace, thread: Thread, n: nat, m: nat)
    requires IsRun(r) && n <= m < |r.states| && thread in r.states[n].threads && r.states[n].threads[thread].Ended?
    ensures thread in r.states[m].threads && r.states[m].threads[thread].Ended?
    decreases m
  {
    if n < m {
      EndedStaysEnded(r, thread, n, m - 1);
      assert Follows(r, m - 1);
      hide Inv, Step, ReplaceICEPeer, Budget.DecisionAt;
    }
  }

  /** In every run, a restart cancelled while it sleeps never replaces a peer. */
  lemma CancelledNeverReplaces(r: Trace, n: nat, m: nat)
    requires IsRun(r) && n < m < |r.actions| && r.actions[n].Cancel?
    ensures !(r.actions[m].Carry? && r.actions[m].thread == r.actions[n].thread)
  {
    assert Follows(r, n) && Follows(r, m);
    EndedStaysEnded(r, r.actions[n].thread, n + 1, m);
    hide Inv, Step, ReplaceICEPeer, Budget.DecisionAt;
  }

  // ---------------------------------------------------------------- the budget

  /** What is known of one thread: where it passed, and that it was not told to give up if it is under way or has replaced a peer. */
  ghost predicate Recorded(w: World, i: Thread) {
    && i in w.threads && i in w.entries
    && var h, n := HistoryOf(w, w.entries[i].callback), w.entries[i].position;
    && n < |h| && h[n].Restart?
    && (i in w.carried ==> w.threads[i].Ended?)
    && (i in w.carried || !w.threads[i].Ended? ==> !Budget.DecisionAt(h, n).GiveUp?)
  }

  ghost predicate Accounted(w: World) {
    && w.entries.Keys == w.threads.Keys && w.carried <= w.threads.Keys
    && (forall i :: i in w.threads ==> Recorded(w, i))
    && (forall i, j :: i in w.entries && j in w.entries && i != j ==> w.entries[i] != w.entries[j])
  }

  /** A decision depends on nothing that comes after it. */
  lemma DecisionStands(h: Budget.History, e: Budget.Event, i: nat)
    requires i < |h| && h[i].Restart?
    ensures Budget.DecisionAt(h + [e], i) == Budget.DecisionAt(h, i)
  {
    assert (h + [e])[..i + 1] == h[..i + 1];
  }

  lemma ActRecords(w: World, a: Action, i: Thread)
    requires Enabled(w, a) && Accounted(w) && i in Act(w, a).threads
    ensures Recorded(Act(w, a), i)
  {
    hide Step, ReplaceICEPeer, Budget.DecisionAt;
    if i in w.threads {
      assert Recorded(w, i);
      var h, n := HistoryOf(w, w.entries[i].callback), w.entries[i].position;
      match a
      case Connect(cb, now) => DecisionStands(h, Budget.Connected(now), n);
      case Pass(_, cb, _, manual, self, now) => DecisionStands(h, Budget.Restart(manual, self, now), n);
      case _ =>
    }
  }

  lemma ActAccounts(w: World, a: Action)
    requires Enabled(w, a) && Accounted(w)
    ensures Accounted(Act(w, a))
  {
    var u := Act(w, a);
    forall i | i in u.threads
      ensures Recorded(u, i)
    {
      ActRecords(w, a, i);
    }
    ActEntries(w, a);
    hide Act, Enabled, Recorded;
  }

  /** Every pass is entered at a position of its own. */
  lemma ActEntries(w: World, a: Action)
    requires Enabled(w, a) && Accounted(w)
    ensures var u := Act(w, a);
      && u.entries.Keys == u.threads.Keys && u.carried <= u.threads.Keys
      && (forall i, j :: i in u.entries && j in u.entries && i != j ==> u.entries[i] != u.entries[j])
  {
    hide Step, ReplaceICEPeer, Budget.DecisionAt;
    if a.Pass? {
      forall i | i in w.entries
        ensures w.entries[i] != Entry(a.callback, |HistoryOf(w, a.callback)|)
      {
        assert Recorded(w, i);
      }
    }
    hide Recorded, HistoryOf;
  }

  lemma {:induction false} RunAccounts(r: Trace, n: nat)
    requires IsRun(r) && Accounted(r.states[0]) && n < |r.states|
    ensures Accounted(r.states[n])
  {
    if n > 0 {
      RunAccounts(r, n - 1);
      assert Follows(r, n - 1);
      ActAccounts(r.states[n - 1], r.actions[n - 1]);
      hide Act, Accounted;
    }
  }

  /** The positions of a window at which a restart was not told to give up. */
  ghost function PassedAt(h: Budget.History, from: nat, end: nat): set<nat>
    requires from <= end <= |h|
  {
    set n | from <= n < end && h[n].Restart? && !Budget.DecisionAt(h, n).GiveUp?
  }

  lemma {:induction false} CountPassed(h: Budget.History, from: nat, end: nat)
    requires from <= end <= |h|
    ensures |PassedAt(h, from, end)| == Budget.PassedIn(h, from, end)
    decreases end
  {
    hide Budget.DecisionAt;
    if from == end {
      assert PassedAt(h, from, end) == {};
    } else {
      CountPassed(h, from, end - 1);
      var last, before := end - 1, PassedAt(h, from, end - 1);
      if h[last].Restart? && !Budget.DecisionAt(h, last).GiveUp? {
        assert PassedAt(h, from, end) == before + {last};
      } else {
        assert PassedAt(h, from, end) == before;
      }
    }
  }

  /** Threads at different positions are no more than the positions. */
  lemma {:induction false} NoMoreThan(threads: set<Thread>, at: map<Thread, Entry>, positions: set<nat>)
    requires forall i :: i in threads ==> i in at && at[i].position in positions
    requires forall i, j :: i in threads && j in threads && i != j ==> at[i].position != at[j].position
    ensures |threads| <= |positions|
    decreases |threads|
  {
    if threads != {} {
      var i :| i in threads;
      NoMoreThan(threads - {i}, at, positions - {at[i].position});
    }
  }

  /** The callbacks that passed in a window of a history and have replaced a peer. */
  ghost function Replacers(w: World, cb: Callback, from: nat, end: nat): set<Thread> {
    set i | i in w.carried && i in w.entries && w.entries[i].callback == cb && from <= w.entries[i].position < end
  }

  lemma ReplacersPassed(w: World, cb: Callback, from: nat, end: nat)
    requires Accounted(w) && from <= end <= |HistoryOf(w, cb)|
    ensures |Replacers(w, cb, from, end)| <= Budget.PassedIn(HistoryOf(w, cb), from, end)
  {
    hide Budget.DecisionAt;
    var h, threads := HistoryOf(w, cb), Replacers(w, cb, from, end);
    forall i | i in threads
      ensures w.entries[i].position in PassedAt(h, from, end)
    {
      assert Recorded(w, i);
    }
    NoMoreThan(threads, w.entries, PassedAt(h, from, end));
    CountPassed(h, from, end);
  }

  /** In every run, of the callbacks that pass between two resets of the budget at most five ever replace a peer, and each at most once. */
  lemma AtMostFiveReplace(r: Trace, n: nat, cb: Callback, from: nat, end: nat)
    requires IsRun(r) && Accounted(r.states[0]) && n < |r.states|
    requires from <= end <= |HistoryOf(r.states[n], cb)|
    requires forall i :: from < i < end ==> !Budget.IsReset(HistoryOf(r.states[n], cb), i)
    ensures |Replacers(r.states[n], cb, from, end)| <= Budget.MAX_ATTEMPTS
    ensures forall i :: i in r.states[n].carried ==> i in r.states[n].threads && r.states[n].threads[i].Ended?
  {
    RunAccounts(r, n);
    ReplacersPassed(r.states[n], cb, from, end);
    Budget.BudgetBetweenResets(HistoryOf(r.states[n], cb), from, end);
    assert forall i :: i in r.states[n].carried ==> Recorded(r.states[n], i);
  }
}
