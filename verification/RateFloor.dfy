/** What the token-bucket limiter grants: a request is refused only when some stretch of time
    that ends with it has used up its allowance. */
module RateFloor {
  import opened Types
  import opened RateLimit

  // ---- one call -------------------------------------------------------------------------------

  /** A key without a bucket is admitted and leaves its burst less one; a rate of zero or less
      admits everything and keeps no bucket. */
  lemma FreshKeyAdmitted(before: Buckets, q: Request, after: Buckets, r: Reply)
    requires Handles(before, q, after, r) && (q.key !in before || q.rate <= 0)
    ensures r == Reply(true, 0)
    ensures q.rate <= 0 ==> after == before
    ensures q.rate > 0 ==> q.key in after
    ensures q.rate > 0 ==> after[q.key].last == q.now
    ensures q.rate > 0 ==> after[q.key].tokens == (if q.burst <= 0 then q.rate else q.burst) as real - 1.0
  {
    if q.rate > 0 {
      var base :| HandlesOn(before, base, q, after, r);
      assert Elapsed(q.now, q.now) == 0.0;
    }
  }

  // ---- windows ----------------------------------------------------------------------------------

  /** Request n with all that was admitted from request i on: at most the burst and what the
      rate allows in the seconds between the two. */
  ghost predicate Within(calls: seq<Call>, key: string, rate: int, burst: int, i: nat, n: nat)
    requires i <= n < |calls|
  {
    Admitted(calls[i..n], key) as real + 1.0
      <= (if burst <= 0 then rate else burst) as real
         + rate as real * ((calls[n].q.now - calls[i].q.now) as real / 1_000_000_000.0)
  }

  /** A window accounts for a bucket: it was full when the window began, and has lost only what
      was admitted since and regained what the rate gives. */
  ghost predicate Explains(calls: seq<Call>, b: RateBucket, key: string, rate: int, burst: int, i: nat, n: nat)
    requires i < n <= |calls|
  {
    && calls[i].q.key == key
    && b.tokens == Allowance(rate, burst, calls[i].q.now, b.last) - Admitted(calls[i..n], key) as real
  }

  /** What the limits allow from the start of a window until now. */
  function Allowance(rate: int, burst: int, start: Time, now: Time): real {
    EffectiveBurst(rate, burst) as real + rate as real * Elapsed(now, start)
  }

  /** A window grows by one call. */
  lemma AdmittedNext(calls: seq<Call>, key: string, i: nat, n: nat)
    requires i <= n < |calls|
    ensures Admitted(calls[i..n + 1], key) == Admitted(calls[i..n], key) + Count(calls[n], key)
  {
    assert calls[i..n + 1] == calls[i..n] + [calls[n]];
    AdmittedLast(calls[i..n], calls[n], key);
  }

  lemma AllowanceGrows(rate: int, burst: int, start: Time, last: Time, now: Time)
    ensures Allowance(rate, burst, start, now)
      == Allowance(rate, burst, start, last) + Elapsed(now, last) * rate as real
  {
    assert Elapsed(now, start) == Elapsed(last, start) + Elapsed(now, last);
    Distributes(rate as real, Elapsed(last, start), Elapsed(now, last));
  }

  lemma Distributes(r: real, x: real, y: real)
    ensures r * (x + y) == r * x + y * r
  {
  }

  /** A request over the allowance breaks the window. */
  lemma Over(calls: seq<Call>, key: string, rate: int, burst: int, i: nat, n: nat)
    requires i <= n < |calls|
    ensures Within(calls, key, rate, burst, i, n)
      <==> Allowance(rate, burst, calls[i].q.now, calls[n].q.now) - Admitted(calls[i..n], key) as real >= 1.0
  {
    assert Elapsed(calls[n].q.now, calls[i].q.now)
      == (calls[n].q.now - calls[i].q.now) as real / 1_000_000_000.0;
  }

  /** A full bucket opens a window. */
  lemma WindowOpens(calls: seq<Call>, key: string, rate: int, burst: int, n: nat, f: RateBucket)
    requires n < |calls| && calls[n].q.key == key && rate > 0
    requires f == RateBucket(EffectiveBurst(rate, burst) as real, calls[n].q.now)
    requires calls[n].r.allowed
    ensures Explains(calls, Spent(f), key, rate, burst, n, n + 1)
  {
    AdmittedNext(calls, key, n, n);
    assert calls[n..n] == [];
    assert Elapsed(calls[n].q.now, calls[n].q.now) == 0.0;
  }

  /** A bucket that is not full goes on in the window that accounts for it. */
  lemma WindowGoesOn(calls: seq<Call>, key: string, rate: int, burst: int, i: nat, n: nat, b: RateBucket)
    requires i < n < |calls| && calls[n].q.key == key && rate > 0
    requires Explains(calls, b, key, rate, burst, i, n)
    requires var t := b.tokens + Elapsed(calls[n].q.now, b.last) * rate as real;
      t < EffectiveBurst(rate, burst) as real && calls[n].r.allowed == (t >= 1.0)
    ensures Explains(calls, Spent(Refilled(b, rate, EffectiveBurst(rate, burst), calls[n].q.now)),
                     key, rate, burst, i, n + 1)
    ensures !calls[n].r.allowed ==> !Within(calls, key, rate, burst, i, n)
  {
    AdmittedNext(calls, key, i, n);
    AllowanceGrows(rate, burst, calls[i].q.now, b.last, calls[n].q.now);
    Over(calls, key, rate, burst, i, n);
    var f := Refilled(b, rate, EffectiveBurst(rate, burst), calls[n].q.now);
    assert f.tokens == Allowance(rate, burst, calls[i].q.now, f.last) - Admitted(calls[i..n], key) as real;
  }

  /** What a call leaves its key. */
  lemma CallLeaves(c: Call, after: Buckets, rate: int, burst: int)
    requires rate > 0 && c.q.rate == rate && c.q.burst == burst && Handles(c.before, c.q, after, c.r)
    ensures var f := Refilled(Start(c.before, c.q), rate, EffectiveBurst(rate, burst), c.q.now);
      c.q.key in after && after[c.q.key] == Spent(f) && c.r.allowed == (f.tokens >= 1.0)
  {
    var base :| HandlesOn(c.before, base, c.q, after, c.r);
  }

  /** One call for the key, whose bucket some window accounts for unless it is new. */
  lemma CallExplained(calls: seq<Call>, after: Buckets, key: string, rate: int, burst: int, was: nat, n: nat)
      returns (i: nat)
    requires n < |calls| && rate > 0
    requires var q := calls[n].q; q.key == key && q.rate == rate && q.burst == burst
    requires Handles(calls[n].before, calls[n].q, after, calls[n].r)
    requires key in calls[n].before ==>
      was < n && Explains(calls, calls[n].before[key], key, rate, burst, was, n)
    ensures i <= n && key in after && Explains(calls, after[key], key, rate, burst, i, n + 1)
    ensures !calls[n].r.allowed ==> i < n && !Within(calls, key, rate, burst, i, n)
  {
    CallLeaves(calls[n], after, rate, burst);
    var b := Start(calls[n].before, calls[n].q);
    i := BucketMoves(calls, b, key in calls[n].before, key, rate, burst, was, n);
  }

  /** The bucket is full at the call, or goes on in its window. */
  lemma BucketMoves(calls: seq<Call>, b: RateBucket, known: bool, key: string, rate: int, burst: int, was: nat, n: nat)
      returns (i: nat)
    requires n < |calls| && rate > 0 && calls[n].q.key == key
    requires calls[n].r.allowed == (Refilled(b, rate, EffectiveBurst(rate, burst), calls[n].q.now).tokens >= 1.0)
    requires if known then was < n && Explains(calls, b, key, rate, burst, was, n)
             else b == RateBucket(EffectiveBurst(rate, burst) as real, calls[n].q.now)
    ensures i <= n && Explains(
      calls, Spent(Refilled(b, rate, EffectiveBurst(rate, burst), calls[n].q.now)), key, rate, burst, i, n + 1)
    ensures !calls[n].r.allowed ==> i < n && !Within(calls, key, rate, burst, i, n)
  {
    var most, now := EffectiveBurst(rate, burst), calls[n].q.now;
    if b.tokens + Elapsed(now, b.last) * rate as real < most as real {
      assert Elapsed(now, now) == 0.0;
      i := was;
      WindowGoesOn(calls, key, rate, burst, i, n, b);
    } else {
      i := n;
      WindowOpens(calls, key, rate, burst, n, Refilled(b, rate, most, now));
    }
  }

  /** A call for another key. */
  lemma OtherCall(calls: seq<Call>, after: Buckets, key: string, rate: int, burst: int, i: nat, n: nat)
    requires i < n < |calls| && calls[n].q.key != key && key in calls[n].before && key in after
    requires Handles(calls[n].before, calls[n].q, after, calls[n].r)
    requires Explains(calls, calls[n].before[key], key, rate, burst, i, n)
    ensures Explains(calls, after[key], key, rate, burst, i, n + 1)
  {
    HandlesKeepsBound(calls[n].before, calls[n].q, after, calls[n].r);
    AdmittedNext(calls, key, i, n);
  }

  /** At every moment since the key's first request some window accounts for its bucket. */
  lemma {:induction false} BucketExplained(calls: seq<Call>, end: Buckets, key: string, rate: int, burst: int, n: nat)
      returns (i: nat)
    requires IsRun(calls, end) && rate > 0 && n < |calls|
    requires Undisturbed(calls, end, key, rate, burst)
    requires calls[0].q.key == key && key !in calls[0].before
    ensures i <= n && key in TableAfter(calls, end, n)
    ensures Explains(calls, TableAfter(calls, end, n)[key], key, rate, burst, i, n + 1)
    ensures calls[n].q.key == key && !calls[n].r.allowed ==> i < n && !Within(calls, key, rate, burst, i, n)
  {
    var c, after := calls[n], TableAfter(calls, end, n);
    assert Handles(c.before, c.q, after, c.r) && key in after;
    var was := 0;
    if n > 0 {
      was := BucketExplained(calls, end, key, rate, burst, n - 1);
      assert TableAfter(calls, end, n - 1) == c.before;
    }
    if c.q.key == key {
      i := CallExplained(calls, after, key, rate, burst, was, n);
    } else {
      i := was;
      OtherCall(calls, after, key, rate, burst, i, n);
    }
  }

  // ---- over runs ------------------------------------------------------------------------------------

  lemma AllowedIsWithin(calls: seq<Call>, end: Buckets, key: string, rate: int, burst: int, i: nat, n: nat)
    requires IsRun(calls, end) && rate > 0 && i <= n < |calls|
    requires Undisturbed(calls, end, key, rate, burst)
    requires calls[i].q.key == key && calls[n].q.key == key && calls[n].r.allowed
    ensures Within(calls, key, rate, burst, i, n)
  {
    WindowIsRun(calls, end, key, rate, burst, i, n);
    RateBound(calls[i..n + 1], TableAfter(calls, end, n), key, rate, burst);
    AdmittedNext(calls, key, i, n);
    Over(calls, key, rate, burst, i, n);
  }

  lemma WindowIsRun(calls: seq<Call>, end: Buckets, key: string, rate: int, burst: int, i: nat, n: nat)
    requires IsRun(calls, end) && i <= n < |calls| && Undisturbed(calls, end, key, rate, burst)
    ensures IsRun(calls[i..n + 1], TableAfter(calls, end, n))
    ensures Undisturbed(calls[i..n + 1], TableAfter(calls, end, n), key, rate, burst)
  {
    var window, last := calls[i..n + 1], TableAfter(calls, end, n);
    forall j | 0 <= j < |window|
      ensures Handles(window[j].before, window[j].q, TableAfter(window, last, j), window[j].r)
      ensures key in TableAfter(window, last, j)
    {
      assert TableAfter(window, last, j) == TableAfter(calls, end, i + j);
      assert Handles(calls[i + j].before, calls[i + j].q, TableAfter(calls, end, i + j), calls[i + j].r);
      assert key in TableAfter(calls, end, i + j);
    }
  }

  /** From a key's first request on, its limits steady and its bucket unpruned, whatever the
      clock does: a request is admitted if and only if with it no window that began with a
      request for the key holds more than the burst plus what the rate allows. So the limiter
      refuses nothing that the bound does not forbid. */
  lemma AdmittedIffWithin(calls: seq<Call>, end: Buckets, key: string, rate: int, burst: int, n: nat)
    requires IsRun(calls, end) && rate > 0 && n < |calls|
    requires Undisturbed(calls, end, key, rate, burst)
    requires calls[0].q.key == key && key !in calls[0].before && calls[n].q.key == key
    ensures calls[n].r.allowed <==>
      forall i :: 0 <= i <= n && calls[i].q.key == key ==> Within(calls, key, rate, burst, i, n)
  {
    if calls[n].r.allowed {
      forall i | 0 <= i <= n && calls[i].q.key == key ensures Within(calls, key, rate, burst, i, n) {
        AllowedIsWithin(calls, end, key, rate, burst, i, n);
      }
    } else {
      var i := BucketExplained(calls, end, key, rate, burst, n);
    }
  }

  /** The requests for the key among these calls. */
  function Requests(calls: seq<Call>, key: string): nat {
    if calls == [] then 0
    else Requests(calls[..|calls| - 1], key) + if calls[|calls| - 1].q.key == key then 1 else 0
  }

  lemma {:induction false} AdmittedFewer(calls: seq<Call>, key: string, i: nat)
    requires i <= |calls|
    ensures Admitted(calls[i..], key) <= Requests(calls, key)
    decreases |calls|
  {
    if i < |calls| {
      AdmittedFewer(calls[..|calls| - 1], key, i);
      assert calls[i..][..|calls| - i - 1] == calls[..|calls| - 1][i..];
    }
  }

  lemma {:induction false} OrderedBetween(calls: seq<Call>, i: nat, n: nat)
    requires Ordered(calls) && i <= n < |calls|
    ensures calls[i].q.now <= calls[n].q.now
    decreases n
  {
    if i < n {
      OrderedBetween(calls, i, n - 1);
    }
  }

  /** On a clock that does not go back a new key has its whole burst: its first requests, as
      many as the burst, are all admitted, whatever their times. */
  lemma BurstIsGranted(calls: seq<Call>, end: Buckets, key: string, rate: int, burst: int, n: nat)
    requires IsRun(calls, end) && Ordered(calls) && rate > 0 && n < |calls|
    requires Undisturbed(calls, end, key, rate, burst)
    requires calls[0].q.key == key && key !in calls[0].before && calls[n].q.key == key
    requires Requests(calls[..n], key) < if burst <= 0 then rate else burst
    ensures calls[n].r.allowed
  {
    if !calls[n].r.allowed {
      var i := BucketExplained(calls, end, key, rate, burst, n);
      AdmittedFewer(calls[..n], key, i);
      assert calls[..n][i..] == calls[i..n];
      OrderedBetween(calls, i, n);
      ElapsedForward(calls[n].q.now, calls[i].q.now, rate);
      assert Within(calls, key, rate, burst, i, n);
    }
  }

  // ---- prune --------------------------------------------------------------------------------------

  ghost predicate Stale(b: RateBucket, now: Time) {
    b.last < now - 600 * 1_000_000_000
  }

  /** Below 65536 buckets nothing is pruned. From there on all that is ten minutes old goes, and
      of the rest at most one, and only when as many are still left. */
  lemma PruneSpares(before: Buckets, now: Time, after: Buckets)
    requires Prunes(before, now, after)
    ensures |before| < 65536 ==> after == before
    ensures forall k :: k in after ==> k in before && after[k] == before[k]
    ensures |before| >= 65536 ==> forall k :: k in after ==> !Stale(before[k], now)
    ensures forall k, j :: k in before && j in before && k != j && !Stale(before[k], now) && !Stale(before[j], now) ==>
      k in after || j in after
    ensures (exists k :: k in before && !Stale(before[k], now) && k !in after)
      ==> |set k | k in before && !Stale(before[k], now)| >= 65536
  {
    PruneMakesRoom(before, now, after);
    var kept := Fresh(before, now);
    assert kept.Keys == set k | k in before && !Stale(before[k], now);
    assert |kept| == |kept.Keys|;
    if |before| >= MAX_RATE_BUCKETS && |kept| >= MAX_RATE_BUCKETS {
      var order :| PrunesVictim(kept, order, after);
    }
  }
}
