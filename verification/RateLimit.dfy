/** The token-bucket limiter, over exact arithmetic. */
module RateLimit {
  import opened Types

  const MAX_RATE_BUCKETS: nat := 65536
  const STALE: int := 600 * SECOND
  const MILLISECOND: int := 1_000_000

  datatype RateBucket = RateBucket(tokens: real, last: Time)

  type Buckets = map<string, RateBucket>

  datatype Request = Request(key: string, rate: int, burst: int, now: Time)

  datatype Reply = Reply(allowed: bool, delay: Time)

  // ---- one bucket ---------------------------------------------------------------------------

  /** now.Sub(last).Seconds() */
  function Elapsed(now: Time, last: Time): real {
    (now - last) as real / SECOND as real
  }

  function EffectiveBurst(rate: int, burst: int): int {
    if burst <= 0 then rate else burst
  }

  function Capped(x: real, cap: real): real {
    if x < cap then x else cap
  }

  function Refilled(b: RateBucket, rate: int, burst: int, now: Time): RateBucket {
    RateBucket(Capped(b.tokens + Elapsed(now, b.last) * rate as real, burst as real), now)
  }

  function Ceil(x: real): int {
    -(-x).Floor
  }

  function Delay(tokens: real, rate: int): Time
    requires rate > 0
  {
    Ceil((1.0 - tokens) / rate as real * 1000.0) * MILLISECOND
  }

  /** What an admitted request leaves. */
  function Spent(b: RateBucket): RateBucket {
    if b.tokens >= 1.0 then RateBucket(b.tokens - 1.0, b.last) else b
  }

  // ---- prune --------------------------------------------------------------------------------

  function Fresh(buckets: Buckets, now: Time): Buckets {
    map k | k in buckets && !(buckets[k].last < now - STALE) :: buckets[k]
  }

  /** A run of `range` over the map's keys. */
  ghost predicate IsOrder(order: seq<string>, keys: set<string>) {
    && (forall k :: k in keys <==> k in order)
    && (forall i, j :: 0 <= i < j < |order| ==> order[i] != order[j])
  }

  /** The loop's oldestKey after the keys of `order`. */
  function Oldest(buckets: Buckets, order: seq<string>): (victim: string)
    requires forall k :: k in order ==> k in buckets
    ensures if order == [] then victim == "" else victim in order
  {
    if order == [] then ""
    else
      var k := order[|order| - 1];
      var best := Oldest(buckets, order[..|order| - 1]);
      if best == "" || buckets[k].last < buckets[best].last then k else best
  }

  ghost predicate PrunesVictim(kept: Buckets, order: seq<string>, after: Buckets) {
    IsOrder(order, kept.Keys) && after == kept - {Oldest(kept, order)}
  }

  /** Every outcome prune can have; the victim depends on the map's iteration order. */
  ghost predicate Prunes(before: Buckets, now: Time, after: Buckets) {
    if |before| < MAX_RATE_BUCKETS then after == before
    else if |Fresh(before, now)| < MAX_RATE_BUCKETS then after == Fresh(before, now)
    else exists order :: PrunesVictim(Fresh(before, now), order, after)
  }

  /** One call of Allow. */
  ghost predicate Handles(before: Buckets, q: Request, after: Buckets, r: Reply) {
    if q.rate <= 0 then after == before && r == Reply(true, 0)
    else exists base :: HandlesOn(before, base, q, after, r)
  }

  ghost predicate HandlesOn(before: Buckets, base: Buckets, q: Request, after: Buckets, r: Reply)
    requires q.rate > 0
  {
    var burst := EffectiveBurst(q.rate, q.burst);
    && (if q.key in before then base == before else Prunes(before, q.now, base))
    && var b := Refilled(Start(before, q), q.rate, burst, q.now);
       && after == base[q.key := Spent(b)]
       && r == if b.tokens >= 1.0 then Reply(true, 0) else Reply(false, Delay(b.tokens, q.rate))
  }

  function Start(before: Buckets, q: Request): RateBucket {
    if q.key in before then before[q.key] else RateBucket(EffectiveBurst(q.rate, q.burst) as real, q.now)
  }

  lemma MakeHandles(before: Buckets, base: Buckets, q: Request, after: Buckets, r: Reply, b: RateBucket)
    requires q.rate > 0
    requires if q.key in before then base == before else Prunes(before, q.now, base)
    requires b == Refilled(Start(before, q), q.rate, EffectiveBurst(q.rate, q.burst), q.now)
    requires after == base[q.key := Spent(b)]
    requires r == if b.tokens >= 1.0 then Reply(true, 0) else Reply(false, Delay(b.tokens, q.rate))
    ensures Handles(before, q, after, r)
  {
    assert HandlesOn(before, base, q, after, r);
  }

  class RateLimiter {
    var buckets: Buckets

    constructor ()
      ensures buckets == map[]
    {
      buckets := map[];
    }

    method Allow(key: string, rate: int, burst: int, now: Time) returns (allowed: bool, delay: Time)
      modifies this
      ensures Handles(old(buckets), Request(key, rate, burst, now), buckets, Reply(allowed, delay))
    {
      if rate <= 0 {
        return true, 0;
      }
      var most := if burst <= 0 then rate else burst;
      var bucket: RateBucket;
      if key in buckets {
        bucket := buckets[key];
      } else {
        Prune(now);
        bucket := RateBucket(most as real, now);
      }
      ghost var base := buckets;
      bucket := Refilled(bucket, rate, most, now);
      ghost var filled := bucket;
      if bucket.tokens >= 1.0 {
        bucket := bucket.(tokens := bucket.tokens - 1.0);
        buckets := buckets[key := bucket];
        allowed, delay := true, 0;
      } else {
        buckets := buckets[key := bucket];
        allowed, delay := false, Delay(bucket.tokens, rate);
      }
      MakeHandles(old(buckets), base, Request(key, rate, burst, now), buckets, Reply(allowed, delay), filled);
    }

    method Prune(now: Time)
      modifies this
      ensures Prunes(old(buckets), now, buckets)
    {
      if |buckets| < MAX_RATE_BUCKETS {
        return;
      }
      DropStale(now);
      if |buckets| < MAX_RATE_BUCKETS {
        return;
      }
      var oldestKey, order := FindOldest();
      buckets := buckets - {oldestKey};
      assert PrunesVictim(Fresh(old(buckets), now), order, buckets);
    }

    method DropStale(now: Time)
      modifies this
      ensures buckets == Fresh(old(buckets), now)
    {
      var cutoff := now - STALE;
      var rest := buckets.Keys;
      while rest != {}
        invariant rest <= old(buckets).Keys
        invariant buckets == map k | k in old(buckets) && (k in rest || !(old(buckets)[k].last < cutoff)) ::
          old(buckets)[k]
        decreases |rest|
      {
        var key :| key in rest;
        if buckets[key].last < cutoff {
          buckets := buckets - {key};
        }
        rest := rest - {key};
      }
    }

    method FindOldest() returns (oldestKey: string, ghost order: seq<string>)
      ensures IsOrder(order, buckets.Keys) && oldestKey == Oldest(buckets, order)
    {
      oldestKey, order := "", [];
      var oldest: Time := 0;
      var rest := buckets.Keys;
      while rest != {}
        invariant rest <= buckets.Keys
        invariant IsOrder(order, buckets.Keys - rest)
        invariant oldestKey == Oldest(buckets, order)
        invariant oldestKey != "" ==> oldestKey in buckets && oldest == buckets[oldestKey].last
        decreases |rest|
      {
        var key :| key in rest;
        ghost var longer := order + [key];
        assert longer[..|order|] == order;
        if oldestKey == "" || buckets[key].last < oldest {
          oldestKey, oldest := key, buckets[key].last;
        }
        order := longer;
        rest := rest - {key};
      }
      assert buckets.Keys - rest == buckets.Keys;
    }
  }

  // ---- the table's size -----------------------------------------------------------------------

  lemma PruneMakesRoom(before: Buckets, now: Time, after: Buckets)
    requires Prunes(before, now, after)
    ensures |before| <= MAX_RATE_BUCKETS ==> |after| < MAX_RATE_BUCKETS
    ensures after.Keys <= before.Keys
    ensures forall k :: k in after ==> after[k] == before[k]
  {
    var kept := Fresh(before, now);
    assert kept.Keys <= before.Keys;
    SubsetSize(kept.Keys, before.Keys);
    assert |kept.Keys| == |kept| && |before.Keys| == |before|;
    if |before| >= MAX_RATE_BUCKETS && |kept| >= MAX_RATE_BUCKETS {
      var order :| PrunesVictim(kept, order, after);
      var k :| k in kept;
      assert k in order;
      var victim := Oldest(kept, order);
      assert after.Keys == kept.Keys - {victim};
      assert |after| == |after.Keys|;
    }
  }

  lemma {:induction false} SubsetSize(a: set<string>, b: set<string>)
    requires a <= b
    ensures |a| <= |b|
    decreases |a|
  {
    if a != {} {
      var x :| x in a;
      SubsetSize(a - {x}, b - {x});
    }
  }

  ghost predicate Keeps(before: Buckets, after: Buckets, key: string) {
    && (|before| <= MAX_RATE_BUCKETS ==> |after| <= MAX_RATE_BUCKETS)
    && forall k :: k in after && k != key ==> k in before && after[k] == before[k]
  }

  /** A call leaves at most 65536 buckets, and touches no bucket but its own except to drop it. */
  lemma HandlesKeepsBound(before: Buckets, q: Request, after: Buckets, r: Reply)
    requires Handles(before, q, after, r)
    ensures Keeps(before, after, q.key)
  {
    if q.rate > 0 {
      var base :| HandlesOn(before, base, q, after, r);
      if q.key !in before {
        PruneMakesRoom(before, q.now, base);
      }
      assert |base.Keys| == |base|;
      assert after.Keys == base.Keys + {q.key};
      assert |after.Keys| == |after|;
    }
  }

  // ---- runs -------------------------------------------------------------------------------------

  /** One call and the table before it. */
  datatype Call = Call(before: Buckets, q: Request, r: Reply)

  /** A run of calls that ends with the table `end`. */
  ghost predicate IsRun(calls: seq<Call>, end: Buckets) {
    forall i {:trigger TableAfter(calls, end, i)} :: 0 <= i < |calls| ==>
      Handles(calls[i].before, calls[i].q, TableAfter(calls, end, i), calls[i].r)
  }

  function TableAfter(calls: seq<Call>, end: Buckets, i: nat): Buckets
    requires i < |calls|
  {
    if i + 1 < |calls| then calls[i + 1].before else end
  }

  ghost predicate KeepsAll(calls: seq<Call>, end: Buckets) {
    forall i {:trigger TableAfter(calls, end, i)} :: 0 <= i < |calls| ==>
      Keeps(calls[i].before, TableAfter(calls, end, i), calls[i].q.key)
  }

  lemma RunKeepsAll(calls: seq<Call>, end: Buckets)
    requires IsRun(calls, end)
    ensures KeepsAll(calls, end)
  {
    forall i | 0 <= i < |calls| ensures Keeps(calls[i].before, TableAfter(calls, end, i), calls[i].q.key) {
      HandlesKeepsBound(calls[i].before, calls[i].q, TableAfter(calls, end, i), calls[i].r);
    }
  }

  ghost predicate WithinBound(calls: seq<Call>) {
    forall i :: 0 <= i < |calls| ==> |calls[i].before| <= MAX_RATE_BUCKETS
  }

  lemma {:induction false} BoundHolds(calls: seq<Call>, end: Buckets, n: nat)
    requires n < |calls| && Small(calls[0].before)
    requires forall i :: 0 <= i < |calls| && Small(calls[i].before) ==> Small(TableAfter(calls, end, i))
    ensures Small(calls[n].before) && Small(TableAfter(calls, end, n))
  {
    if n > 0 {
      BoundHolds(calls, end, n - 1);
    }
  }

  predicate Small(buckets: Buckets) {
    |buckets| <= MAX_RATE_BUCKETS
  }

  /** The bucket table never exceeds 65536 keys, in any run. */
  lemma TableNeverExceeds(calls: seq<Call>, end: Buckets)
    requires IsRun(calls, end) && calls != []
    requires calls[0].before == map[]
    ensures WithinBound(calls) && |end| <= MAX_RATE_BUCKETS
  {
    RunKeepsAll(calls, end);
    forall i | 0 <= i < |calls| && Small(calls[i].before) ensures Small(TableAfter(calls, end, i)) {
      assert Keeps(calls[i].before, TableAfter(calls, end, i), calls[i].q.key);
    }
    forall n | 0 <= n < |calls| ensures |calls[n].before| <= MAX_RATE_BUCKETS {
      BoundHolds(calls, end, n);
    }
    BoundHolds(calls, end, |calls| - 1);
  }

  // ---- the rate bound ---------------------------------------------------------------------------

  /** Every request for the key carries this rate and burst. */
  ghost predicate SteadyLimits(calls: seq<Call>, key: string, rate: int, burst: int) {
    forall i :: 0 <= i < |calls| && calls[i].q.key == key ==> calls[i].q.rate == rate && calls[i].q.burst == burst
  }

  /** The key's limits stay as they are, and no prune drops its bucket. */
  ghost predicate Undisturbed(calls: seq<Call>, end: Buckets, key: string, rate: int, burst: int) {
    && SteadyLimits(calls, key, rate, burst)
    && (forall i :: 0 <= i < |calls| ==> key in TableAfter(calls, end, i))
  }

  function Admitted(calls: seq<Call>, key: string): nat {
    if calls == [] then 0
    else
      var c := calls[|calls| - 1];
      Admitted(calls[..|calls| - 1], key) + if c.q.key == key && c.r.allowed then 1 else 0
  }

  /** Tokens as if no time had passed since 1970. */
  function Level(b: RateBucket, rate: int): real {
    b.tokens - Elapsed(b.last, 0) * rate as real
  }

  lemma ElapsedSplits(now: Time, last: Time, rate: int)
    ensures Elapsed(now, last) * rate as real ==
      Elapsed(now, 0) * rate as real - Elapsed(last, 0) * rate as real
  {
    assert Elapsed(now, last) == Elapsed(now, 0) - Elapsed(last, 0);
  }

  /** A request lowers the level by what it takes and never raises it, whatever the clock does. */
  lemma LevelFalls(b: RateBucket, rate: int, burst: int, now: Time)
    ensures var f := Refilled(b, rate, burst, now);
      && Level(Spent(f), rate) <= Level(b, rate) - (if f.tokens >= 1.0 then 1.0 else 0.0)
      && Spent(f).last == now
      && Level(Spent(f), rate) <=
           burst as real - Elapsed(now, 0) * rate as real - (if f.tokens >= 1.0 then 1.0 else 0.0)
  {
    ElapsedSplits(now, b.last, rate);
  }

  /** One call's effect on the key's level: a request takes what it is admitted for, any other
      call leaves the bucket alone. */
  lemma CallLowers(c: Call, after: Buckets, key: string, rate: int, burst: int)
    requires Handles(c.before, c.q, after, c.r) && rate > 0
    requires c.q.key == key ==> c.q.rate == rate && c.q.burst == burst
    requires key in c.before && key in after
    ensures Lowered(Level(c.before[key], rate), Level(after[key], rate), c.q.key == key && c.r.allowed)
  {
    HandlesKeepsBound(c.before, c.q, after, c.r);
    if c.q.key == key {
      var base :| HandlesOn(c.before, base, c.q, after, c.r);
      LevelFalls(c.before[key], rate, EffectiveBurst(rate, burst), c.q.now);
    }
  }

  lemma CallStarts(c: Call, after: Buckets, key: string, rate: int, burst: int)
    requires Handles(c.before, c.q, after, c.r) && rate > 0
    requires c.q.key == key && c.q.rate == rate && c.q.burst == burst
    ensures key in after
    ensures Bounded(if c.r.allowed then 1 else 0, Level(after[key], rate), LevelCap(rate, burst, c.q.now))
    ensures after[key].last == c.q.now && (c.r.allowed ==> after[key].tokens >= 0.0)
  {
    var base :| HandlesOn(c.before, base, c.q, after, c.r);
    LevelFalls(Start(c.before, c.q), rate, EffectiveBurst(rate, burst), c.q.now);
  }

  /** The level of a full bucket. */
  function LevelCap(rate: int, burst: int, now: Time): real {
    EffectiveBurst(rate, burst) as real - Elapsed(now, 0) * rate as real
  }

  predicate Bounded(admitted: nat, level: real, cap: real) {
    admitted as real + level <= cap
  }

  predicate Lowered(before: real, after: real, took: bool) {
    after <= before - if took then 1.0 else 0.0
  }

  lemma BoundedNext(admitted: nat, before: real, cap: real, after: real, took: bool)
    requires Bounded(admitted, before, cap) && Lowered(before, after, took)
    ensures Bounded(admitted + if took then 1 else 0, after, cap)
  {
  }

  lemma PrefixRun(calls: seq<Call>, end: Buckets)
    requires IsRun(calls, end) && |calls| > 1
    ensures var n := |calls| - 1;
      && IsRun(calls[..n], calls[n].before)
      && forall i :: 0 <= i < n ==> TableAfter(calls[..n], calls[n].before, i) == TableAfter(calls, end, i)
  {
    var n := |calls| - 1;
    forall i | 0 <= i < n
      ensures Handles(calls[..n][i].before, calls[..n][i].q, TableAfter(calls[..n], calls[n].before, i),
        calls[..n][i].r)
    {
      assert Handles(calls[i].before, calls[i].q, TableAfter(calls, end, i), calls[i].r);
    }
  }

  /** From a request for the key on, what was admitted and what is left come to no more than
      the burst and what the passing time refilled. */
  lemma {:induction false} LevelBound(calls: seq<Call>, end: Buckets, key: string, rate: int, burst: int)
    requires IsRun(calls, end) && rate > 0 && calls != [] && calls[0].q.key == key
    requires Undisturbed(calls, end, key, rate, burst)
    ensures key in end
    ensures Bounded(Admitted(calls, key), Level(end[key], rate), LevelCap(rate, burst, calls[0].q.now))
    decreases |calls|
  {
    var n := |calls| - 1;
    var c := calls[n];
    assert Handles(c.before, c.q, TableAfter(calls, end, n), c.r);
    assert key in TableAfter(calls, end, n);
    if n == 0 {
      CallStarts(c, end, key, rate, burst);
      assert calls[..0] == [];
    } else {
      PrefixRun(calls, end);
      LevelBound(calls[..n], c.before, key, rate, burst);
      CallLowers(c, end, key, rate, burst);
      BoundedNext(Admitted(calls[..n], key), Level(c.before[key], rate), LevelCap(rate, burst, calls[0].q.now),
                  Level(end[key], rate), c.q.key == key && c.r.allowed);
    }
  }

  /** However the times of the calls are ordered, as long as the key's limits stay and no prune
      drops its bucket: from a request for a key through an admitted one, no more are admitted
      than the burst plus what the rate allows in the time between the two. */
  lemma RateBound(calls: seq<Call>, end: Buckets, key: string, rate: int, burst: int)
    requires IsRun(calls, end) && rate > 0 && calls != []
    requires Undisturbed(calls, end, key, rate, burst)
    requires calls[0].q.key == key && calls[|calls| - 1].q.key == key && calls[|calls| - 1].r.allowed
    ensures WithinRate(Admitted(calls, key), rate, burst, calls[0].q.now, calls[|calls| - 1].q.now)
  {
    LevelBound(calls, end, key, rate, burst);
    var n := |calls| - 1;
    var c := calls[n];
    assert Handles(c.before, c.q, TableAfter(calls, end, n), c.r);
    CallStarts(c, end, key, rate, burst);
    LevelLeft(Admitted(calls, key), end[key], rate, burst, calls[0].q.now, c.q.now);
  }

  predicate WithinRate(admitted: nat, rate: int, burst: int, start: Time, now: Time) {
    admitted as real <= EffectiveBurst(rate, burst) as real + rate as real * Elapsed(now, start)
  }

  lemma LevelLeft(admitted: nat, b: RateBucket, rate: int, burst: int, start: Time, now: Time)
    requires Bounded(admitted, Level(b, rate), LevelCap(rate, burst, start)) && b.tokens >= 0.0 && b.last == now
    ensures WithinRate(admitted, rate, burst, start, now)
  {
    ElapsedSplits(now, start, rate);
  }

  // ---- the retry hint ---------------------------------------------------------------------------

  lemma CeilBounds(x: real)
    ensures x <= Ceil(x) as real < x + 1.0
  {
  }

  /** tokens + elapsed * rate reaches 1 just when the elapsed time is long enough. */
  lemma RefillReaches(tokens: real, elapsed: real, rate: real)
    requires rate > 0.0
    ensures tokens + elapsed * rate >= 1.0 <==> elapsed >= (1.0 - tokens) / rate
  {
    var needed := (1.0 - tokens) / rate;
    assert needed * rate == 1.0 - tokens;
    if elapsed >= needed {
      assert (elapsed - needed) * rate >= 0.0;
    } else {
      assert (needed - elapsed) * rate > 0.0;
    }
  }

  lemma DelayBounds(tokens: real, rate: int)
    requires rate > 0
    ensures var needed := (1.0 - tokens) / rate as real;
      needed <= Elapsed(Delay(tokens, rate), 0) < needed + 0.001
  {
    var needed := (1.0 - tokens) / rate as real;
    CeilBounds(needed * 1000.0);
    var ms := Ceil(needed * 1000.0);
    assert Delay(tokens, rate) == ms * MILLISECOND;
    assert Elapsed(ms * MILLISECOND, 0) == ms as real / 1000.0;
  }

  lemma WaitedCompares(waited: Time, delay: Time)
    ensures waited >= delay ==> Elapsed(waited, 0) >= Elapsed(delay, 0)
    ensures waited <= delay - MILLISECOND ==> Elapsed(waited, 0) <= Elapsed(delay, 0) - 0.001
  {
    if waited <= delay - MILLISECOND {
      assert Elapsed(delay - MILLISECOND, 0) == Elapsed(delay, 0) - 0.001;
    }
  }

  /** A refused bucket admits again when the delay has passed, and not a millisecond sooner. */
  lemma WaitAdmits(b: RateBucket, rate: int, burst: int, now: Time)
    requires rate > 0 && burst >= 1 && b.tokens < 1.0
    ensures var waited, delay := now - b.last, Delay(b.tokens, rate);
      && (waited >= delay ==> Refilled(b, rate, burst, now).tokens >= 1.0)
      && (waited <= delay - MILLISECOND ==> Refilled(b, rate, burst, now).tokens < 1.0)
  {
    var waited, delay := now - b.last, Delay(b.tokens, rate);
    var needed := (1.0 - b.tokens) / rate as real;
    DelayBounds(b.tokens, rate);
    WaitedCompares(waited, delay);
    RefillReaches(b.tokens, Elapsed(now, b.last), rate as real);
    assert Elapsed(now, b.last) == Elapsed(waited, 0);
  }

  /** The refused key is left alone until the last call, and its bucket is not pruned. */
  ghost predicate LeftAlone(calls: seq<Call>, end: Buckets, key: string) {
    && (forall i :: 0 < i < |calls| - 1 ==> calls[i].q.key != key)
    && (forall i :: 0 <= i < |calls| ==> key in TableAfter(calls, end, i))
  }

  lemma {:induction false} BucketWaits(calls: seq<Call>, end: Buckets, key: string, n: nat)
    requires KeepsAll(calls, end) && LeftAlone(calls, end, key)
    requires 1 <= n < |calls|
    ensures key in calls[1].before && key in calls[n].before && calls[n].before[key] == calls[1].before[key]
  {
    assert key in TableAfter(calls, end, 0);
    if n > 1 {
      BucketWaits(calls, end, key, n - 1);
      assert calls[n - 1].q.key != key && key in TableAfter(calls, end, n - 1);
      assert TableAfter(calls, end, n - 1) == calls[n].before;
      OtherStays(calls[n - 1].before, TableAfter(calls, end, n - 1), calls[n - 1].q.key, key);
    }
  }

  lemma OtherStays(before: Buckets, after: Buckets, key: string, other: string)
    requires Keeps(before, after, key) && other != key && other in after
    ensures other in before && after[other] == before[other]
  {
  }

  /** After a refusal, the key's next request (its bucket not pruned in between) is admitted
      if it comes once the returned delay has passed, and refused if it comes a millisecond
      or more before that. */
  lemma RetryHintIsSound(calls: seq<Call>, end: Buckets, key: string, rate: int, burst: int)
    requires IsRun(calls, end) && |calls| >= 2 && LeftAlone(calls, end, key)
    requires calls[0].q.key == key && calls[0].q.rate == rate && calls[0].q.burst == burst
    requires !calls[0].r.allowed
    requires var again := calls[|calls| - 1].q; again.key == key && again.rate == rate && again.burst == burst
    ensures var waited, delay := calls[|calls| - 1].q.now - calls[0].q.now, calls[0].r.delay;
      && (waited >= delay ==> calls[|calls| - 1].r.allowed)
      && (waited <= delay - MILLISECOND ==> !calls[|calls| - 1].r.allowed)
  {
    var n := |calls| - 1;
    RunKeepsAll(calls, end);
    BucketWaits(calls, end, key, n);
    var c, d := calls[0], calls[n];
    assert Handles(c.before, c.q, TableAfter(calls, end, 0), c.r);
    var base :| HandlesOn(c.before, base, c.q, calls[1].before, c.r);
    assert Handles(d.before, d.q, TableAfter(calls, end, n), d.r);
    var base' :| HandlesOn(d.before, base', d.q, end, d.r);
    var b := d.before[key];
    assert b.last == c.q.now && b.tokens < 1.0 && c.r.delay == Delay(b.tokens, rate);
    WaitAdmits(b, rate, EffectiveBurst(rate, burst), d.q.now);
  }

  /** The Retry-After header, in whole seconds and at least one. */
  function RetryAfter(duration: Time): int {
    var seconds := Ceil(Elapsed(duration, 0));
    if seconds < 1 then 1 else seconds
  }

  /** A client that waits as the header says waits long enough. */
  lemma RetryAfterCovers(duration: Time)
    ensures RetryAfter(duration) * SECOND >= duration
    ensures duration > 0 ==> RetryAfter(duration) * SECOND < duration + SECOND
  {
    CeilBounds(Elapsed(duration, 0));
    assert Elapsed(duration, 0) * SECOND as real == duration as real;
    var s := Ceil(Elapsed(duration, 0));
    assert (s as real) * SECOND as real >= duration as real;
    assert (s * SECOND) as real == (s as real) * SECOND as real;
  }

  // ---- what prune does ------------------------------------------------------------------------

  /** Ten minutes and one tick of the clock refill the whole burst. For rates below a thousand
      million a second that is a burst of at most 600 times the rate. */
  predicate RefillsWhenStale(rate: int, burst: int) {
    EffectiveBurst(rate, burst) * SECOND <= rate * (STALE + 1)
  }

  lemma TicksPass(ticks: int, rate: int, most: int)
    requires rate > 0 && ticks >= STALE + 1
    ensures most * SECOND <= rate * (STALE + 1) ==> Elapsed(ticks, 0) * rate as real >= most as real
    ensures most * SECOND > rate * ticks ==> Elapsed(ticks, 0) * rate as real < most as real
  {
    assert rate * ticks >= rate * (STALE + 1);
    assert (rate * ticks) as real == rate as real * ticks as real;
    assert Elapsed(ticks, 0) * rate as real * SECOND as real == (rate * ticks) as real;
  }

  lemma StaleRefills(b: RateBucket, rate: int, burst: int, now: Time)
    requires rate > 0 && b.tokens >= 0.0 && b.last < now - STALE && RefillsWhenStale(rate, burst)
    ensures b.tokens + Elapsed(now, b.last) * rate as real >= EffectiveBurst(rate, burst) as real
  {
    TicksPass(now - b.last, rate, EffectiveBurst(rate, burst));
    assert Elapsed(now, b.last) == Elapsed(now - b.last, 0);
  }

  /** Whatever a stale bucket holds, the next request finds it as full as a new one. */
  ghost predicate InvisibleWhenStale(rate: int, burst: int) {
    var most := EffectiveBurst(rate, burst);
    forall b: RateBucket, now: Time :: b.tokens >= 0.0 && b.last < now - STALE ==>
      Refilled(b, rate, most, now) == Refilled(RateBucket(most as real, now), rate, most, now)
  }

  /** Dropping stale buckets changes no answer if and only if ten minutes and a tick refill the
      burst. */
  lemma StalePruneIsInvisibleIff(rate: int, burst: int)
    requires rate > 0
    ensures InvisibleWhenStale(rate, burst) <==> RefillsWhenStale(rate, burst)
  {
    var most := EffectiveBurst(rate, burst);
    if RefillsWhenStale(rate, burst) {
      forall b: RateBucket, now: Time | b.tokens >= 0.0 && b.last < now - STALE
        ensures Refilled(b, rate, most, now) == Refilled(RateBucket(most as real, now), rate, most, now)
      {
        StaleRefills(b, rate, burst, now);
        assert Elapsed(now, now) == 0.0;
      }
    } else {
      var b, now := RateBucket(0.0, 0), STALE + 1;
      TicksPass(now, rate, most);
      assert Elapsed(now, now) == 0.0;
      assert Refilled(b, rate, most, now).tokens < most as real;
      assert Refilled(RateBucket(most as real, now), rate, most, now).tokens == most as real;
    }
  }

  // ---- the rate bound through stale prunes -----------------------------------------------------

  ghost predicate Ordered(calls: seq<Call>) {
    forall i :: 0 <= i < |calls| - 1 ==> calls[i].q.now <= calls[i + 1].q.now
  }

  /** The key's bucket may be pruned, but only because it is stale. */
  ghost predicate DroppedStale(calls: seq<Call>, end: Buckets, key: string) {
    forall i {:trigger TableAfter(calls, end, i)} :: 0 <= i < |calls| ==>
      StaleOrKept(calls[i], TableAfter(calls, end, i), key)
  }

  predicate StaleOrKept(c: Call, after: Buckets, key: string) {
    key in c.before && key !in after ==> c.before[key].last < c.q.now - STALE
  }

  /** A clock that does not go back leaves no bucket in debt or in the future. */
  predicate SoundAt(table: Buckets, key: string, now: Time) {
    key in table ==> table[key].tokens >= 0.0 && table[key].last <= now
  }

  lemma ElapsedForward(now: Time, last: Time, rate: int)
    requires last <= now && rate > 0
    ensures Elapsed(now, last) * rate as real >= 0.0
  {
    assert Elapsed(now, last) >= 0.0;
  }

  lemma CallKeepsSound(c: Call, after: Buckets, key: string)
    requires Handles(c.before, c.q, after, c.r) && SoundAt(c.before, key, c.q.now)
    ensures SoundAt(after, key, c.q.now)
  {
    HandlesKeepsBound(c.before, c.q, after, c.r);
    if c.q.key == key && c.q.rate > 0 {
      var base :| HandlesOn(c.before, base, c.q, after, c.r);
      ElapsedForward(c.q.now, Start(c.before, c.q).last, c.q.rate);
    }
  }

  lemma {:induction false} RunIsSound(calls: seq<Call>, end: Buckets, key: string, n: nat)
    requires IsRun(calls, end) && Ordered(calls) && n < |calls| && SoundAt(calls[0].before, key, calls[0].q.now)
    ensures SoundAt(calls[n].before, key, calls[n].q.now)
  {
    if n > 0 {
      RunIsSound(calls, end, key, n - 1);
      var c := calls[n - 1];
      assert Handles(c.before, c.q, TableAfter(calls, end, n - 1), c.r);
      CallKeepsSound(c, calls[n].before, key);
    }
  }

  /** The level of the key's bucket, or of the full one that its next request will make. */
  function Potential(table: Buckets, key: string, rate: int, burst: int, now: Time): real {
    if key in table then Level(table[key], rate) else LevelCap(rate, burst, now)
  }

  lemma CapFalls(rate: int, burst: int, was: Time, now: Time)
    requires rate > 0 && was <= now
    ensures LevelCap(rate, burst, now) <= LevelCap(rate, burst, was)
  {
    ElapsedForward(now, was, rate);
    ElapsedSplits(now, was, rate);
  }

  /** Where a bucket goes stale, a full one in its place stands no higher. */
  lemma StaleIsNoHigher(b: RateBucket, rate: int, burst: int, now: Time)
    requires rate > 0 && b.tokens >= 0.0 && b.last < now - STALE && RefillsWhenStale(rate, burst)
    ensures LevelCap(rate, burst, now) <= Level(b, rate)
  {
    StaleRefills(b, rate, burst, now);
    ElapsedSplits(now, b.last, rate);
  }

  lemma PotentialFalls(c: Call, after: Buckets, key: string, rate: int, burst: int, was: Time)
    requires Handles(c.before, c.q, after, c.r) && rate > 0 && was <= c.q.now && RefillsWhenStale(rate, burst)
    requires c.q.key == key ==> c.q.rate == rate && c.q.burst == burst
    requires SoundAt(c.before, key, c.q.now) && StaleOrKept(c, after, key)
    ensures Lowered(Potential(c.before, key, rate, burst, was), Potential(after, key, rate, burst, c.q.now),
                    c.q.key == key && c.r.allowed)
  {
    HandlesKeepsBound(c.before, c.q, after, c.r);
    CapFalls(rate, burst, was, c.q.now);
    if c.q.key == key {
      CallStarts(c, after, key, rate, burst);
      if key in c.before {
        CallLowers(c, after, key, rate, burst);
      }
    } else if key in c.before && key !in after {
      StaleIsNoHigher(c.before[key], rate, burst, c.q.now);
    }
  }

  /** What was admitted and the potential that is left come to no more than a full bucket at the
      start. */
  lemma {:induction false} PotentialBound(calls: seq<Call>, end: Buckets, key: string, rate: int, burst: int)
    requires IsRun(calls, end) && Ordered(calls) && calls != [] && rate > 0 && RefillsWhenStale(rate, burst)
    requires calls[0].q.key == key && SteadyLimits(calls, key, rate, burst) && DroppedStale(calls, end, key)
    requires forall i :: 0 <= i < |calls| ==> SoundAt(calls[i].before, key, calls[i].q.now)
    ensures Bounded(Admitted(calls, key), Potential(end, key, rate, burst, calls[|calls| - 1].q.now),
                    LevelCap(rate, burst, calls[0].q.now))
    decreases |calls|
  {
    var n := |calls| - 1;
    var c := calls[n];
    assert Handles(c.before, c.q, TableAfter(calls, end, n), c.r) && StaleOrKept(c, TableAfter(calls, end, n), key);
    if n == 0 {
      CallStarts(c, end, key, rate, burst);
      assert calls[..0] == [];
    } else {
      PrefixRun(calls, end);
      var was := calls[n - 1].q.now;
      DroppedBefore(calls, end, key);
      PotentialBound(calls[..n], c.before, key, rate, burst);
      PotentialFalls(c, end, key, rate, burst, was);
      BoundedNext(Admitted(calls[..n], key), Potential(c.before, key, rate, burst, was),
                  LevelCap(rate, burst, calls[0].q.now), Potential(end, key, rate, burst, c.q.now),
                  c.q.key == key && c.r.allowed);
    }
  }

  lemma DroppedBefore(calls: seq<Call>, end: Buckets, key: string)
    requires DroppedStale(calls, end, key) && |calls| > 1
    ensures DroppedStale(calls[..|calls| - 1], calls[|calls| - 1].before, key)
  {
    var n := |calls| - 1;
    forall i | 0 <= i < n ensures StaleOrKept(calls[..n][i], TableAfter(calls[..n], calls[n].before, i), key) {
      assert StaleOrKept(calls[i], TableAfter(calls, end, i), key);
    }
  }

  lemma SuffixRun(calls: seq<Call>, end: Buckets, first: nat)
    requires IsRun(calls, end) && first < |calls|
    ensures IsRun(calls[first..], end)
    ensures forall i :: 0 <= i < |calls| - first ==>
      TableAfter(calls[first..], end, i) == TableAfter(calls, end, first + i)
  {
    var rest := calls[first..];
    forall i | 0 <= i < |rest| ensures Handles(rest[i].before, rest[i].q, TableAfter(rest, end, i), rest[i].r) {
      assert Handles(calls[first + i].before, calls[first + i].q, TableAfter(calls, end, first + i),
        calls[first + i].r);
    }
  }

  /** In every run whose clock does not go back, from an empty table or any that is sound, stale
      prunes included: the same bound holds from any request for the key on, when ten minutes
      and a tick refill its burst. Only losing its bucket as the victim of a full table is
      excluded. */
  lemma RateBoundThroughPrunes(calls: seq<Call>, end: Buckets, key: string, rate: int, burst: int, first: nat)
    requires IsRun(calls, end) && Ordered(calls) && first < |calls|
    requires SoundAt(calls[0].before, key, calls[0].q.now)
    requires rate > 0 && RefillsWhenStale(rate, burst)
    requires SteadyLimits(calls[first..], key, rate, burst) && DroppedStale(calls[first..], end, key)
    requires calls[first].q.key == key
    requires var last := calls[|calls| - 1]; last.q.key == key && last.r.allowed
    ensures WithinRate(Admitted(calls[first..], key), rate, burst, calls[first].q.now, calls[|calls| - 1].q.now)
  {
    var rest := calls[first..];
    SuffixRun(calls, end, first);
    forall i | 0 <= i < |rest| ensures SoundAt(rest[i].before, key, rest[i].q.now) {
      RunIsSound(calls, end, key, first + i);
    }
    assert Ordered(rest) by {
      assert forall i :: 0 <= i < |rest| ==> rest[i] == calls[first + i];
    }
    PotentialBound(rest, end, key, rate, burst);
    var c := rest[|rest| - 1];
    assert Handles(c.before, c.q, TableAfter(rest, end, |rest| - 1), c.r);
    CallStarts(c, end, key, rate, burst);
    LevelLeft(Admitted(rest, key), end[key], rate, burst, rest[0].q.now, c.q.now);
  }

  // ---- the victim of a full table ----------------------------------------------------------------

  ghost predicate IsOldest(buckets: Buckets, k: string) {
    k in buckets && forall j :: j in buckets ==> buckets[k].last <= buckets[j].last
  }

  /** What the loop knows: a key it passed over is younger than its candidate, or younger than
      the empty key, which the loop forgets as soon as it moves on. */
  ghost predicate Candidate(buckets: Buckets, order: seq<string>, best: string) {
    forall j :: j in order && j != "" ==>
      && j in buckets
      && (|| (best != "" && best in buckets && buckets[best].last <= buckets[j].last)
          || ("" in order && "" in buckets && buckets[""].last < buckets[j].last))
  }

  lemma {:induction false} OldestIsCandidate(buckets: Buckets, order: seq<string>)
    requires forall k :: k in order ==> k in buckets
    requires forall i, j :: 0 <= i < j < |order| ==> order[i] != order[j]
    ensures Candidate(buckets, order, Oldest(buckets, order))
  {
    if order != [] {
      var before, k := order[..|order| - 1], order[|order| - 1];
      OldestIsCandidate(buckets, before);
      assert order == before + [k];
      assert k !in before;
    }
  }

  lemma {:induction false} EmptyKeyFirst(buckets: Buckets, order: seq<string>)
    requires forall k :: k in order ==> k in buckets
    requires forall i, j :: 0 <= i < j < |order| ==> order[i] != order[j]
    requires |order| >= 2 && order[0] == ""
    ensures Oldest(buckets, order) != ""
  {
    var n := |order| - 1;
    assert order[..n][0] == "" && order[n] != "";
    if n > 1 {
      EmptyKeyFirst(buckets, order[..n]);
    }
  }

  lemma {:induction false} AnyOrder(keys: set<string>) returns (order: seq<string>)
    ensures IsOrder(order, keys)
    decreases |keys|
  {
    if keys == {} {
      order := [];
    } else {
      var k :| k in keys;
      var rest := AnyOrder(keys - {k});
      order := rest + [k];
    }
  }

  ghost predicate AlwaysOldest(buckets: Buckets) {
    forall order :: IsOrder(order, buckets.Keys) ==> IsOldest(buckets, Oldest(buckets, order))
  }

  /** Some other bucket is as old as the empty key's. */
  ghost predicate EmptyKeyTied(buckets: Buckets)
    requires "" in buckets
  {
    exists k :: k in buckets && k != "" && buckets[k].last <= buckets[""].last
  }

  /** A full table loses its least recently used bucket, whatever order the map yields its
      keys in, if and only if the empty key is absent, alone, or not the only oldest: the loop
      takes the empty key for "nothing chosen yet". */
  lemma VictimIsOldestIff(buckets: Buckets)
    requires buckets != map[]
    ensures AlwaysOldest(buckets) <==> ("" !in buckets || buckets.Keys == {""} || EmptyKeyTied(buckets))
  {
    if "" !in buckets || buckets.Keys == {""} || EmptyKeyTied(buckets) {
      forall order | IsOrder(order, buckets.Keys) ensures IsOldest(buckets, Oldest(buckets, order)) {
        OrderEvictsOldest(buckets, order);
      }
    } else {
      var rest := AnyOrder(buckets.Keys - {""});
      var order := [""] + rest;
      var k :| k in buckets && k != "";
      assert k in rest;
      assert IsOrder(order, buckets.Keys);
      EmptyKeyFirst(buckets, order);
      var victim := Oldest(buckets, order);
      assert victim in buckets && buckets[victim].last > buckets[""].last;
      assert !IsOldest(buckets, victim);
    }
  }

  lemma OrderEvictsOldest(buckets: Buckets, order: seq<string>)
    requires buckets != map[] && IsOrder(order, buckets.Keys)
    requires "" !in buckets || buckets.Keys == {""} || EmptyKeyTied(buckets)
    ensures IsOldest(buckets, Oldest(buckets, order))
  {
    var some :| some in buckets;
    assert some in order;
    OldestIsCandidate(buckets, order);
    var victim := Oldest(buckets, order);
    assert victim in order;
    if "" in buckets && buckets.Keys != {""} {
      var k :| k in buckets && k != "" && buckets[k].last <= buckets[""].last;
      assert k in order;
      forall j | j in buckets ensures buckets[victim].last <= buckets[j].last {
        assert j in order;
      }
    } else {
      forall j | j in buckets ensures buckets[victim].last <= buckets[j].last {
        assert j in order;
      }
    }
  }

  /** The identities the data plane limits hold a NUL, so none is the empty key. */
  ghost predicate Identities(calls: seq<Call>) {
    forall i :: 0 <= i < |calls| ==> '\0' in calls[i].q.key
  }

  lemma {:induction false} NoEmptyKey(calls: seq<Call>, end: Buckets, n: nat)
    requires KeepsAll(calls, end) && Identities(calls) && n < |calls| && calls[0].before == map[]
    ensures "" !in calls[n].before
  {
    if n > 0 {
      NoEmptyKey(calls, end, n - 1);
      assert Keeps(calls[n - 1].before, TableAfter(calls, end, n - 1), calls[n - 1].q.key);
    }
  }

  /** In every run of requests of such identities, the bucket that a full table loses is a least
      recently used one of those not stale, in every iteration order. */
  lemma IdentitiesLoseOldest(calls: seq<Call>, end: Buckets, n: nat)
    requires IsRun(calls, end) && Identities(calls) && n < |calls| && calls[0].before == map[]
    requires Fresh(calls[n].before, calls[n].q.now) != map[]
    ensures AlwaysOldest(Fresh(calls[n].before, calls[n].q.now))
  {
    RunKeepsAll(calls, end);
    NoEmptyKey(calls, end, n);
    VictimIsOldestIff(Fresh(calls[n].before, calls[n].q.now));
  }

  // ---- runs beyond the bound ------------------------------------------------------------------------

  /** A key without a bucket, one request a second and a burst of one: it is admitted. */
  lemma StartsFull(before: Buckets, base: Buckets, q: Request)
    requires q.key !in before && q.rate == 1 && q.burst == 1 && Prunes(before, q.now, base)
    ensures Handles(before, q, base[q.key := RateBucket(0.0, q.now)], Reply(true, 0))
  {
    assert Elapsed(q.now, q.now) == 0.0;
    MakeHandles(before, base, q, base[q.key := RateBucket(0.0, q.now)], Reply(true, 0), RateBucket(1.0, q.now));
  }

  /** A key with a bucket. */
  lemma Continues(before: Buckets, q: Request, b: RateBucket)
    requires q.key in before && q.rate > 0
    requires b == Refilled(before[q.key], q.rate, EffectiveBurst(q.rate, q.burst), q.now)
    ensures Handles(before, q, before[q.key := Spent(b)],
                    if b.tokens >= 1.0 then Reply(true, 0) else Reply(false, Delay(b.tokens, q.rate)))
  {
    MakeHandles(before, before, q, before[q.key := Spent(b)],
                if b.tokens >= 1.0 then Reply(true, 0) else Reply(false, Delay(b.tokens, q.rate)), b);
  }

  /** The last of three tables and the calls that lead to it. */
  ghost predicate ThreeCalls(calls: seq<Call>, end: Buckets) {
    && |calls| == 3
    && Handles(calls[0].before, calls[0].q, calls[1].before, calls[0].r)
    && Handles(calls[1].before, calls[1].q, calls[2].before, calls[1].r)
    && Handles(calls[2].before, calls[2].q, end, calls[2].r)
  }

  lemma ThreeRun(calls: seq<Call>, end: Buckets)
    requires ThreeCalls(calls, end)
    ensures IsRun(calls, end)
  {
    forall i | 0 <= i < 3 ensures Handles(calls[i].before, calls[i].q, TableAfter(calls, end, i), calls[i].r) {
      assert i == 0 || i == 1 || i == 2;
    }
  }

  function Count(c: Call, key: string): nat {
    if c.q.key == key && c.r.allowed then 1 else 0
  }

  lemma AdmittedLast(calls: seq<Call>, c: Call, key: string)
    ensures Admitted(calls + [c], key) == Admitted(calls, key) + Count(c, key)
  {
    assert (calls + [c])[..|calls|] == calls;
  }

  lemma AdmittedOfThree(a: Call, b: Call, c: Call, key: string)
    ensures Admitted([a, b, c], key) == Count(a, key) + Count(b, key) + Count(c, key)
  {
    AdmittedLast([], a, key);
    AdmittedLast([a], b, key);
    AdmittedLast([a, b], c, key);
    assert [] + [a] == [a] && [a] + [b] == [a, b] && [a, b] + [c] == [a, b, c];
  }

  /** A request under higher limits in between takes the key past the bound of the limits before
      and after it; its bucket is never pruned. */
  lemma LimitsRaised(key: string) returns (calls: seq<Call>, end: Buckets)
    ensures IsRun(calls, end) && |calls| == 3 && calls[0].before == map[] && Ordered(calls)
    ensures forall i :: 0 <= i < 3 ==> key in TableAfter(calls, end, i)
    ensures calls[0].q == Request(key, 1, 1, 0) && calls[2].q == Request(key, 1, 1, SECOND) && calls[2].r.allowed
    ensures !WithinRate(Admitted(calls, key), 1, 1, 0, SECOND)
  {
    var q0, q1, q2 := Request(key, 1, 1, 0), Request(key, 1000, 1000, SECOND), Request(key, 1, 1, SECOND);
    var t0: Buckets := map[];
    assert Elapsed(SECOND, 0) == 1.0 && Elapsed(SECOND, SECOND) == 0.0;
    StartsFull(t0, t0, q0);
    var t1 := t0[key := RateBucket(0.0, 0)];
    Continues(t1, q1, RateBucket(1000.0, SECOND));
    var t2 := t1[key := RateBucket(999.0, SECOND)];
    Continues(t2, q2, RateBucket(1.0, SECOND));
    end := t2[key := RateBucket(0.0, SECOND)];
    calls := [Call(t0, q0, Reply(true, 0)), Call(t1, q1, Reply(true, 0)), Call(t2, q2, Reply(true, 0))];
    ThreeRun(calls, end);
    AdmittedOfThree(calls[0], calls[1], calls[2], key);
  }

  // ---- a full table ---------------------------------------------------------------------------------

  function Name(n: nat): string {
    seq(n, _ => 'a')
  }

  /** n buckets of other clients, last used at this time. */
  function Others(n: nat, last: Time): Buckets {
    if n == 0 then map[] else Others(n - 1, last)[Name(n) := RateBucket(0.0, last)]
  }

  lemma {:induction false} OthersAre(n: nat, last: Time)
    ensures |Others(n, last)| == n
    ensures forall k :: k in Others(n, last) ==> 1 <= |k| <= n && k[0] == 'a' && Others(n, last)[k].last == last
  {
    if n > 0 {
      OthersAre(n - 1, last);
      assert Name(n) !in Others(n - 1, last);
      assert Others(n, last).Keys == Others(n - 1, last).Keys + {Name(n)};
      assert |Others(n, last).Keys| == |Others(n, last)| && |Others(n - 1, last).Keys| == n - 1;
    }
  }

  /** A full table with nothing stale loses one bucket, the oldest if the empty key is absent. */
  lemma FullPrune(before: Buckets, now: Time) returns (victim: string)
    requires |before| >= MAX_RATE_BUCKETS && "" !in before
    requires forall k :: k in before ==> before[k].last >= now - STALE
    ensures IsOldest(before, victim) && Prunes(before, now, before - {victim})
  {
    assert Fresh(before, now) == before;
    var order := AnyOrder(before.Keys);
    VictimIsOldestIff(before);
    victim := Oldest(before, order);
    assert PrunesVictim(Fresh(before, now), order, before - {victim});
  }

  lemma SizeWith(table: Buckets, key: string, b: RateBucket)
    requires key !in table
    ensures |table[key := b]| == |table| + 1
  {
    assert table[key := b].Keys == table.Keys + {key};
    assert |table.Keys| == |table| && |table[key := b].Keys| == |table[key := b]|;
  }

  lemma SizeWithout(table: Buckets, key: string)
    requires key in table
    ensures |table - {key}| == |table| - 1
  {
    assert (table - {key}).Keys == table.Keys - {key};
    assert |table.Keys| == |table| && |(table - {key}).Keys| == |table - {key}|;
  }

  /** The table of others with one bucket more is full, and "k" and "z" are not among them. */
  lemma OthersAnd(n: nat, last: Time, key: string, b: RateBucket)
    requires n == MAX_RATE_BUCKETS - 1 && (key == "k" || key == "z")
    ensures var t := Others(n, last);
      && key !in t && "" !in t && Prunes(t, b.last, t)
      && |t[key := b]| == MAX_RATE_BUCKETS && t[key := b] - {key} == t
  {
    OthersAre(n, last);
    SizeWith(Others(n, last), key, b);
  }

  /** The oldest bucket of a full table makes room. */
  lemma VictimGoes(n: nat)
    requires n == MAX_RATE_BUCKETS - 1
    ensures var t := Others(n, 1); Prunes(t["k" := RateBucket(0.0, 0)], 1, t)
  {
    var t := Others(n, 1);
    OthersAre(n, 1);
    OthersAnd(n, 1, "k", RateBucket(0.0, 0));
    var victim := FullPrune(t["k" := RateBucket(0.0, 0)], 1);
    assert t["k" := RateBucket(0.0, 0)]["k"].last == 0;
    assert victim == "k";
  }

  /** A full table's oldest bucket goes though it is not stale, and its key starts afresh: two are
      admitted within a nanosecond where the bound allows one. */
  lemma VictimStartsAfresh(n: nat) returns (calls: seq<Call>, end: Buckets)
    requires n == MAX_RATE_BUCKETS - 1
    ensures IsRun(calls, end) && |calls| == 3 && Ordered(calls) && SteadyLimits(calls, "k", 1, 1)
    ensures "k" !in calls[0].before && RefillsWhenStale(1, 1)
    ensures calls[0].q == Request("k", 1, 1, 0) && calls[2].q == Request("k", 1, 1, 1) && calls[2].r.allowed
    ensures !WithinRate(Admitted(calls, "k"), 1, 1, 0, 1)
  {
    var q0, q1, q2 := Request("k", 1, 1, 0), Request("z", 1, 1, 1), Request("k", 1, 1, 1);
    var t0 := Others(n, 1);
    OthersAnd(n, 1, "k", RateBucket(0.0, 0));
    StartsFull(t0, t0, q0);
    var t1 := t0["k" := RateBucket(0.0, 0)];
    VictimGoes(n);
    OthersAnd(n, 1, "z", RateBucket(0.0, 1));
    StartsFull(t1, t0, q1);
    var t2 := t0["z" := RateBucket(0.0, 1)];
    OthersAre(n, 1);
    var other := FullPrune(t2, 1);
    StartsFull(t2, t2 - {other}, q2);
    end := (t2 - {other})["k" := RateBucket(0.0, 1)];
    calls := [Call(t0, q0, Reply(true, 0)), Call(t1, q1, Reply(true, 0)), Call(t2, q2, Reply(true, 0))];
    ThreeRun(calls, end);
    AdmittedOfThree(calls[0], calls[1], calls[2], "k");
    assert Elapsed(1, 0) < 1.0;
  }

  /** Of this full table only the bucket of "k" looks stale. */
  lemma StaleGoes(n: nat, now: Time, last: Time)
    requires n == MAX_RATE_BUCKETS - 1 && 0 < now - STALE <= last
    ensures var t := Others(n, last); Prunes(t["k" := RateBucket(-1000.0, 0)], now, t)
  {
    var t := Others(n, last);
    OthersAre(n, last);
    OthersAnd(n, last, "k", RateBucket(-1000.0, 0));
    assert Fresh(t["k" := RateBucket(-1000.0, 0)], now) == t;
  }

  const LATE: Time := 1000 * SECOND
  const BACK: Time := 601 * SECOND
  const DEBT: RateBucket := RateBucket(-1000.0, 0)

  /** A request at LATE, and one that a clock set back dates at 0. */
  lemma GoesIntoDebt(n: nat, t: Buckets)
    requires n == MAX_RATE_BUCKETS - 1 && t == Others(n, LATE)
    ensures Handles(t, Request("k", 1, 1, LATE), t["k" := RateBucket(0.0, LATE)], Reply(true, 0))
    ensures Handles(t["k" := RateBucket(0.0, LATE)], Request("k", 1, 1, 0), t["k" := DEBT],
                    Reply(false, Delay(-1000.0, 1)))
  {
    OthersAnd(n, LATE, "k", RateBucket(0.0, LATE));
    StartsFull(t, t, Request("k", 1, 1, LATE));
    var t1 := t["k" := RateBucket(0.0, LATE)];
    assert Elapsed(0, LATE) == -1000.0;
    Continues(t1, Request("k", 1, 1, 0), DEBT);
    assert t1["k" := DEBT] == t["k" := DEBT];
  }

  /** A new client's request at BACK drops the bucket, and the key starts afresh. */
  lemma LosesDebt(n: nat, t: Buckets) returns (end: Buckets)
    requires n == MAX_RATE_BUCKETS - 1 && t == Others(n, LATE)
    ensures "k" !in t
    ensures Handles(t["k" := DEBT], Request("z", 1, 1, BACK), t["z" := RateBucket(0.0, BACK)], Reply(true, 0))
    ensures Handles(t["z" := RateBucket(0.0, BACK)], Request("k", 1, 1, BACK), end, Reply(true, 0))
    ensures "k" in end
  {
    StaleGoes(n, BACK, LATE);
    OthersAnd(n, LATE, "z", RateBucket(0.0, BACK));
    OthersAnd(n, LATE, "k", DEBT);
    StartsFull(t["k" := DEBT], t, Request("z", 1, 1, BACK));
    var t3 := t["z" := RateBucket(0.0, BACK)];
    OthersAre(n, LATE);
    var other := FullPrune(t3, BACK);
    StartsFull(t3, t3 - {other}, Request("k", 1, 1, BACK));
    end := (t3 - {other})["k" := RateBucket(0.0, BACK)];
  }

  lemma AdmittedOfFour(a: Call, b: Call, c: Call, d: Call, key: string)
    ensures Admitted([a, b, c, d], key) == Count(a, key) + Count(b, key) + Count(c, key) + Count(d, key)
  {
    AdmittedOfThree(a, b, c, key);
    AdmittedLast([a, b, c], d, key);
    assert [a, b, c] + [d] == [a, b, c, d];
  }

  /** The four calls: t without "k" at first, "k" in debt before the third. */
  function BackwardCalls(t: Buckets): seq<Call> {
    [Call(t, Request("k", 1, 1, LATE), Reply(true, 0)),
     Call(t["k" := RateBucket(0.0, LATE)], Request("k", 1, 1, 0), Reply(false, Delay(-1000.0, 1))),
     Call(t["k" := DEBT], Request("z", 1, 1, BACK), Reply(true, 0)),
     Call(t["z" := RateBucket(0.0, BACK)], Request("k", 1, 1, BACK), Reply(true, 0))]
  }

  lemma BackwardDrops(t: Buckets, end: Buckets)
    requires "k" in end
    ensures DroppedStale(BackwardCalls(t), end, "k") && SteadyLimits(BackwardCalls(t), "k", 1, 1)
  {
    var calls := BackwardCalls(t);
    forall i | 0 <= i < 4 ensures StaleOrKept(calls[i], TableAfter(calls, end, i), "k") {
      assert i == 0 || i == 1 || i == 2 || i == 3;
    }
  }

  lemma BackwardExceeds(t: Buckets)
    ensures !WithinRate(Admitted(BackwardCalls(t), "k"), 1, 1, LATE, BACK)
  {
    var calls := BackwardCalls(t);
    AdmittedOfFour(calls[0], calls[1], calls[2], calls[3], "k");
    assert Elapsed(BACK, LATE) == -399.0;
  }

  /** A clock that goes back makes a bucket look stale that is not: dropped, it starts afresh. */
  lemma BackwardClock(n: nat) returns (calls: seq<Call>, end: Buckets)
    requires n == MAX_RATE_BUCKETS - 1
    ensures IsRun(calls, end) && |calls| == 4 && SteadyLimits(calls, "k", 1, 1) && DroppedStale(calls, end, "k")
    ensures "k" !in calls[0].before && RefillsWhenStale(1, 1)
    ensures calls[0].q == Request("k", 1, 1, LATE) && calls[3].q == Request("k", 1, 1, BACK) && calls[3].r.allowed
    ensures !WithinRate(Admitted(calls, "k"), 1, 1, LATE, BACK)
  {
    var t := Others(n, LATE);
    GoesIntoDebt(n, t);
    end := LosesDebt(n, t);
    calls := BackwardCalls(t);
    FourRun(calls, end, calls[1].before, calls[2].before, calls[3].before);
    BackwardDrops(t, end);
    BackwardExceeds(t);
  }

  lemma FourRun(calls: seq<Call>, end: Buckets, t1: Buckets, t2: Buckets, t3: Buckets)
    requires |calls| == 4 && calls[1].before == t1 && calls[2].before == t2 && calls[3].before == t3
    requires Handles(calls[0].before, calls[0].q, t1, calls[0].r) && Handles(t1, calls[1].q, t2, calls[1].r)
    requires Handles(t2, calls[2].q, t3, calls[2].r) && Handles(t3, calls[3].q, end, calls[3].r)
    ensures IsRun(calls, end)
    ensures TableAfter(calls, end, 0) == t1 && TableAfter(calls, end, 1) == t2
    ensures TableAfter(calls, end, 2) == t3 && TableAfter(calls, end, 3) == end
  {
    forall i | 0 <= i < 4 ensures Handles(calls[i].before, calls[i].q, TableAfter(calls, end, i), calls[i].r) {
      assert i == 0 || i == 1 || i == 2 || i == 3;
    }
  }
}
