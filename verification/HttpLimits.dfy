/**
 The request limiters of the relay's HTTP interface: one counter for everybody, and one counter per
 source address in a table that is pruned when it grows. Times are whole seconds.
 */
module HttpLimits {
  const U64: nat := 0x1_0000_0000_0000_0000
  const PRUNE_ABOVE: nat := 10000

  type Second = int

  datatype Bucket = Bucket(count: nat, second: Second)

  type Buckets = map<string, Bucket>

  datatype Call = Call(ip: string, now: Second)

  /** A 64-bit counter. */
  function Wrap(n: nat): nat {
    n % U64
  }

  lemma WrapNext(n: nat)
    ensures Wrap(Wrap(n) + 1) == Wrap(n + 1)
  {
  }

  // ---------------------------------------------------------------- one call

  function Prune(m: Buckets, now: Second): Buckets {
    map k | k in m && m[k].second >= now - 1 :: m[k]
  }

  function Trim(m: Buckets, now: Second): Buckets {
    if |m| > PRUNE_ABOVE then Prune(m, now) else m
  }

  function Get(m: Buckets, ip: string): Bucket {
    if ip in m then m[ip] else Bucket(0, 0)
  }

  /** One more request in this second; the counter has 64 bits. */
  function Hit(b: Bucket, now: Second): Bucket {
    Bucket(Wrap((if b.second != now then 0 else b.count) + 1), now)
  }

  function Counted(m: Buckets, c: Call): Buckets {
    m[c.ip := Hit(Get(m, c.ip), c.now)]
  }

  /** The answer a table gives to the call it has just counted. */
  predicate Allows(m: Buckets, c: Call, maxRate: nat) {
    Get(m, c.ip).count <= maxRate
  }

  /** The pruned table and the table that is never pruned, after a history of calls. */
  function Pruned(h: seq<Call>): Buckets {
    if h == [] then map[] else
      var c := h[|h| - 1];
      Counted(Trim(Pruned(h[..|h| - 1]), c.now), c)
  }

  function Full(h: seq<Call>): Buckets {
    if h == [] then map[] else Counted(Full(h[..|h| - 1]), h[|h| - 1])
  }

  // ---------------------------------------------------------------- in place

  class PerIpLimit {
    var buckets: Buckets

    constructor ()
      ensures buckets == Pruned([])
    {
      buckets := map[];
    }

    method Evict(now: Second)
      modifies this
      ensures buckets == Prune(old(buckets), now)
    {
      var todo := buckets.Keys;
      while todo != {}
        invariant todo <= old(buckets.Keys)
        invariant buckets == map k | k in old(buckets) && (k in todo || old(buckets)[k].second >= now - 1) :: old(buckets)[k]
        decreases |todo|
      {
        var k :| k in todo;
        if buckets[k].second < now - 1 {
          buckets := buckets - {k};
        }
        todo := todo - {k};
      }
    }

    method Allow(ip: string, maxRate: nat, now: Second) returns (ok: bool)
      modifies this
      ensures buckets == Counted(Trim(old(buckets), now), Call(ip, now))
      ensures ok <==> Allows(buckets, Call(ip, now), maxRate)
    {
      if |buckets| > PRUNE_ABOVE {
        Evict(now);
      }
      var b := if ip in buckets then buckets[ip] else Bucket(0, 0);
      if b.second != now {
        b := Bucket(0, now);
      }
      b := b.(count := Wrap(b.count + 1));
      buckets := buckets[ip := b];
      ok := b.count <= maxRate;
    }
  }

  class GlobalLimit {
    var bucket: Bucket
    const maxRate: nat

    constructor (maxRate: nat)
      ensures bucket == Bucket(0, 0) && this.maxRate == maxRate
    {
      bucket, this.maxRate := Bucket(0, 0), maxRate;
    }

    method Allow(now: Second) returns (ok: bool)
      modifies this
      ensures bucket == Hit(old(bucket), now)
      ensures ok <==> bucket.count <= maxRate
    {
      if bucket.second != now {
        bucket := Bucket(0, now);
      }
      bucket := bucket.(count := Wrap(bucket.count + 1));
      ok := bucket.count <= maxRate;
    }
  }

  // ---------------------------------------------------------------- counting

  ghost predicate Monotone(h: seq<Call>) {
    forall i, j :: 0 <= i <= j < |h| ==> h[i].now <= h[j].now
  }

  /** How many calls of the history came from `ip` in second `s`. */
  function CallsIn(h: seq<Call>, ip: string, s: Second): nat {
    if h == [] then 0
    else CallsIn(h[..|h| - 1], ip, s) + if h[|h| - 1] == Call(ip, s) then 1 else 0
  }

  /** `b` counts the calls of `ip` in its latest second. */
  ghost predicate Counts(h: seq<Call>, ip: string, b: Bucket) {
    && CallsIn(h, ip, b.second) > 0
    && b.count == Wrap(CallsIn(h, ip, b.second))
    && forall s :: s > b.second ==> CallsIn(h, ip, s) == 0
  }

  ghost predicate CountsAll(h: seq<Call>, m: Buckets) {
    forall ip :: if ip in m then Counts(h, ip, m[ip]) else forall s :: CallsIn(h, ip, s) == 0
  }

  lemma {:induction false} CalledAt(h: seq<Call>, ip: string, s: Second) returns (i: nat)
    requires CallsIn(h, ip, s) > 0
    ensures i < |h| && h[i] == Call(ip, s)
  {
    if h[|h| - 1] == Call(ip, s) {
      i := |h| - 1;
    } else {
      i := CalledAt(h[..|h| - 1], ip, s);
    }
  }

  lemma {:induction false} NotCalledLater(h: seq<Call>, ip: string, s: Second)
    requires forall i :: 0 <= i < |h| ==> h[i].now < s
    ensures CallsIn(h, ip, s) == 0
  {
    if h != [] {
      NotCalledLater(h[..|h| - 1], ip, s);
    }
  }

  /** A bucket, or the empty one of an address without calls, tells the calls of any second not before it. */
  lemma BucketTells(h: seq<Call>, ip: string, m: Buckets, now: Second)
    requires CountsAll(h, m)
    requires forall i :: 0 <= i < |h| ==> h[i].now <= now
    ensures var b := Get(m, ip); Wrap(CallsIn(h, ip, now)) == if b.second != now then 0 else b.count
  {
    if ip in m {
      var i := CalledAt(h, ip, m[ip].second);
    }
  }

  lemma CountsNext(h: seq<Call>, c: Call, m: Buckets)
    requires Monotone(h + [c]) && CountsAll(h, m)
    ensures Counts(h + [c], c.ip, Hit(Get(m, c.ip), c.now))
  {
    var h' := h + [c];
    assert h'[..|h|] == h;
    forall i | 0 <= i < |h|
      ensures h[i].now <= c.now
    {
      assert h'[i].now <= h'[|h|].now;
    }
    BucketTells(h, c.ip, m, c.now);
    hide Wrap, CountsAll;
    var before := CallsIn(h, c.ip, c.now);
    WrapNext(before);
    assert CallsIn(h', c.ip, c.now) == before + 1;
    forall s | s > c.now
      ensures CallsIn(h', c.ip, s) == 0
    {
      NotCalledLater(h, c.ip, s);
    }
  }

  lemma OthersUnchanged(h: seq<Call>, c: Call, m: Buckets, ip: string)
    requires CountsAll(h, m) && ip != c.ip
    ensures if ip in m then Counts(h + [c], ip, m[ip]) else forall s :: CallsIn(h + [c], ip, s) == 0
  {
  }

  lemma {:induction false} FullCountsAll(h: seq<Call>)
    requires Monotone(h)
    ensures CountsAll(h, Full(h))
  {
    if h != [] {
      var init, c := h[..|h| - 1], h[|h| - 1];
      assert init + [c] == h;
      FullCountsAll(init);
      var m := Full(init);
      CountsNext(init, c, m);
      forall ip
        ensures if ip in Full(h) then Counts(h, ip, Full(h)[ip]) else forall s :: CallsIn(h, ip, s) == 0
      {
        if ip != c.ip {
          OthersUnchanged(init, c, m, ip);
        }
      }
    }
  }

  // ---------------------------------------------------------------- pruning

  /** The pruned table holds nothing the full one does not, and lacks only what is older than the second before `now`. */
  ghost predicate Covers(full: Buckets, pruned: Buckets, now: Second) {
    forall ip ::
      if ip in pruned then ip in full && full[ip] == pruned[ip]
      else ip in full ==> full[ip].second < now - 1
  }

  lemma CoversTrimmed(full: Buckets, pruned: Buckets, before: Second, now: Second)
    requires Covers(full, pruned, before) && before <= now
    ensures Covers(full, Trim(pruned, now), now)
  {
  }

  /** Missing an old bucket or having it makes no difference to the next count. */
  lemma CoversCounted(full: Buckets, pruned: Buckets, c: Call)
    requires Covers(full, pruned, c.now)
    ensures Covers(Counted(full, c), Counted(pruned, c), c.now)
    ensures Get(Counted(full, c), c.ip) == Get(Counted(pruned, c), c.ip)
  {
  }

  lemma {:induction false} FullCoversPruned(h: seq<Call>, now: Second)
    requires Monotone(h) && (h != [] ==> h[|h| - 1].now <= now)
    ensures Covers(Full(h), Pruned(h), now)
    ensures h != [] ==> Get(Full(h), h[|h| - 1].ip) == Get(Pruned(h), h[|h| - 1].ip)
  {
    if h != [] {
      var init, c := h[..|h| - 1], h[|h| - 1];
      FullCoversPruned(init, c.now);
      CoversTrimmed(Full(init), Pruned(init), c.now, c.now);
      CoversCounted(Full(init), Trim(Pruned(init), c.now), c);
    }
  }

  /** Pruning never changes an answer. */
  lemma PruningIsInvisible(h: seq<Call>, c: Call, maxRate: nat)
    requires Monotone(h + [c])
    ensures Allows(Pruned(h + [c]), c, maxRate) <==> Allows(Full(h + [c]), c, maxRate)
  {
    FullCoversPruned(h + [c], c.now);
  }

  lemma FullCount(h: seq<Call>, c: Call)
    requires Monotone(h + [c])
    ensures Get(Full(h + [c]), c.ip).count == Wrap(CallsIn(h, c.ip, c.now) + 1)
  {
    var h' := h + [c];
    assert h'[..|h|] == h && Full(h') == Counted(Full(h), c);
    assert CountsAll(h', Full(h')) by { FullCountsAll(h'); }
    assert Counts(h', c.ip, Full(h')[c.ip]);
    hide CountsAll, Monotone, Wrap, Full;
  }

  lemma WrapSmall(n: nat)
    requires n < U64
    ensures Wrap(n) == n
  {
  }

  /** A call is allowed exactly when the calls of its address in its second, itself included, are within the rate; the count wraps at 2^64. */
  lemma AllowedIff(h: seq<Call>, c: Call, maxRate: nat)
    requires Monotone(h + [c])
    ensures Allows(Pruned(h + [c]), c, maxRate) <==> Wrap(CallsIn(h, c.ip, c.now) + 1) <= maxRate
    ensures |h| + 1 < U64 ==> (Allows(Pruned(h + [c]), c, maxRate) <==> CallsIn(h, c.ip, c.now) < maxRate)
  {
    hide Monotone, Full, Pruned, CallsIn, Wrap;
    PruningIsInvisible(h, c, maxRate);
    FullCount(h, c);
    AtMostAll(h, c.ip, c.now);
    if |h| + 1 < U64 {
      WrapSmall(CallsIn(h, c.ip, c.now) + 1);
    }
  }

  lemma {:induction false} AtMostAll(h: seq<Call>, ip: string, s: Second)
    ensures CallsIn(h, ip, s) <= |h|
  {
    if h != [] {
      AtMostAll(h[..|h| - 1], ip, s);
    }
  }

  // ---------------------------------------------------------------- size

  /** The addresses that called in the second of the last call or the one before. */
  ghost function Recent(h: seq<Call>): set<string>
    requires h != []
  {
    set i | 0 <= i < |h| && h[i].now >= h[|h| - 1].now - 1 :: h[i].ip
  }

  lemma SubsetIsSmaller(a: set<string>, b: set<string>)
    requires a <= b
    ensures |a| <= |b|
  {
    if a != {} {
      var x :| x in a;
      SubsetIsSmaller(a - {x}, b - {x});
    }
  }

  /** The table holds at most 10001 addresses, or only addresses seen in the current second and the one before. */
  lemma SizeIsBounded(h: seq<Call>)
    requires h != [] && Monotone(h)
    ensures |Pruned(h)| <= PRUNE_ABOVE + 1 || |Pruned(h)| <= |Recent(h)|
  {
    var init, c := h[..|h| - 1], h[|h| - 1];
    var m := Pruned(init);
    if |m| > PRUNE_ABOVE {
      FullCoversPruned(init, c.now);
      FullCountsAll(init);
      forall k | k in Pruned(h)
        ensures k in Recent(h)
      {
        if k == c.ip {
          assert h[|h| - 1].ip == k;
        } else {
          assert k in m && Full(init)[k] == m[k];
          var i := CalledAt(init, k, m[k].second);
          assert h[i] == init[i];
        }
      }
      SubsetIsSmaller(Pruned(h).Keys, Recent(h));
      assert |Pruned(h)| == |Pruned(h).Keys|;
    } else {
      assert Pruned(h).Keys == m.Keys + {c.ip};
      assert |Pruned(h)| == |Pruned(h).Keys|;
    }
  }

  /** Nobody who called in the current second or the one before is ever pruned. */
  lemma RecentAreKept(h: seq<Call>)
    requires h != [] && Monotone(h)
    ensures Recent(h) <= Pruned(h).Keys
  {
    var now := h[|h| - 1].now;
    FullCoversPruned(h, now);
    FullCountsAll(h);
    forall k | k in Recent(h)
      ensures k in Pruned(h)
    {
      var i :| 0 <= i < |h| && h[i].now >= now - 1 && h[i].ip == k;
      CalledIsCounted(h, i);
      var s := h[i].now;
      assert CallsIn(h, k, s) > 0;
      assert k in Full(h) && Counts(h, k, Full(h)[k]);
      assert s <= Full(h)[k].second;
    }
  }

  lemma {:induction false} CalledIsCounted(h: seq<Call>, i: nat)
    requires i < |h|
    ensures CallsIn(h, h[i].ip, h[i].now) > 0
  {
    if i < |h| - 1 {
      CalledIsCounted(h[..|h| - 1], i);
    }
  }

  /** As long as no more than 10000 addresses have called at all, nothing is pruned. */
  lemma {:induction false} NothingPrunedBelow(h: seq<Call>)
    requires |Full(h)| <= 10000
    ensures Pruned(h) == Full(h)
  {
    if h != [] {
      var init, c := h[..|h| - 1], h[|h| - 1];
      assert Full(h).Keys == Full(init).Keys + {c.ip};
      assert |Full(init)| == |Full(init).Keys| && |Full(h)| == |Full(h).Keys|;
      NothingPrunedBelow(init);
    }
  }

  // ---------------------------------------------------------------- the global limiter

  function Global(times: seq<Second>): Bucket {
    if times == [] then Bucket(0, 0) else Hit(Global(times[..|times| - 1]), times[|times| - 1])
  }

  /** The global limiter is the per-address one with a single address. */
  lemma {:induction false} GlobalIsOneAddress(times: seq<Second>, ip: string)
    ensures Global(times) == Get(Full(seq(|times|, i requires 0 <= i < |times| => Call(ip, times[i]))), ip)
  {
    var h := seq(|times|, i requires 0 <= i < |times| => Call(ip, times[i]));
    if times != [] {
      var init := times[..|times| - 1];
      GlobalIsOneAddress(init, ip);
      assert h[..|h| - 1] == seq(|init|, i requires 0 <= i < |init| => Call(ip, init[i]));
    }
  }
}
