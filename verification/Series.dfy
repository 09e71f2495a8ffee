/** The traffic time series: five-minute rows fold into hours, hours into days, days expire.
    Each fold and its delete is one transaction. */
module Series {
  import opened Types
  import opened Folds

  const SPAN_FINE: int := 300
  const SPAN_HOUR: int := 3600
  const SPAN_DAY: int := 86400
  const RETAIN_FINE: int := 48 * 3600
  const RETAIN_HOUR: int := 30 * 24 * 3600
  const RETAIN_DAY: int := 2 * 365 * 24 * 3600

  // ---- buckets --------------------------------------------------------------------------

  /** Integer division as Go and SQLite do it: toward zero. */
  function Quo(a: int, b: int): int
    requires b > 0
  {
    if a >= 0 then a / b else -((-a) / b)
  }

  /** The start of the span a time falls in. */
  function Bucket(t: Time, span: int): Time {
    var width := if span <= 0 then SPAN_FINE else span;
    var seconds := t / SECOND;
    var adjusted := if seconds < 0 then seconds - (width - 1) else seconds;
    Quo(adjusted, width) * width * SECOND
  }

  /** Bucket is the floor, before 1970 too: a multiple of the span, at most a span away. */
  lemma BucketFloors(t: Time, span: int)
    requires span > 0
    ensures var b := Bucket(t, span) / SECOND;
      b % span == 0 && b <= t / SECOND < b + span && Bucket(t, span) == b * SECOND
  {
    var seconds := t / SECOND;
    var adjusted := if seconds < 0 then seconds - (span - 1) else seconds;
    var q := Quo(adjusted, span);
    if seconds >= 0 {
      assert q == seconds / span;
    } else {
      var n := -adjusted;
      assert n == (n / span) * span + n % span;
    }
    MultipleOf(q, span);
  }

  lemma MultipleOf(q: int, span: int)
    requires span > 0
    ensures (q * span) % span == 0 && (q * span) / span == q
  {
    var m := q * span;
    QuotientUnique(m, span, q, 0);
  }

  lemma QuotientUnique(m: int, span: int, q: int, r: int)
    requires span > 0 && m == q * span + r && 0 <= r < span
    ensures m / span == q && m % span == r
  {
    var d := m / span - q;
    assert m == (m / span) * span + m % span;
    assert d * span == (m / span) * span - q * span;
    if d >= 1 {
      AtLeast(d, span);
    } else if d <= -1 {
      AtLeast(-d, span);
    }
  }

  lemma AtLeast(d: int, span: int)
    requires d >= 1 && span > 0
    ensures d * span >= span
  {
  }

  // ---- the fold ---------------------------------------------------------------------------

  predicate Expired(k: RowKey, from: int, cutoff: int) {
    k.span == from && k.bucket < cutoff
  }

  /** bucket / to * to, in SQL. */
  function TargetBucket(bucket: int, to: int): int
    requires to > 0
  {
    Quo(bucket, to) * to
  }

  function Target(k: RowKey, to: int): RowKey
    requires to > 0
  {
    RowKey(to, TargetBucket(k.bucket, to), k.line)
  }

  function Gone(from: int, cutoff: int): Mark {
    (k: RowKey) => Expired(k, from, cutoff)
  }

  function Coarser(to: int): Onto
    requires to > 0
  {
    (k: RowKey) => Target(k, to)
  }

  ghost function Fold(rows: Rows, from: int, to: int, cutoff: int): Rows
    requires to > 0
  {
    Folded(rows, Gone(from, cutoff), Coarser(to))
  }

  /** Where a row lands: the start of its span, except that a misaligned row before 1970
      lands at the end of it. */
  lemma TargetIs(bucket: int, to: int)
    requires to > 0
    ensures TargetBucket(bucket, to) % to == 0
    ensures bucket >= 0 || bucket % to == 0 ==> TargetBucket(bucket, to) == bucket - bucket % to
    ensures bucket < 0 && bucket % to != 0 ==> TargetBucket(bucket, to) == bucket - bucket % to + to
  {
    MultipleOf(Quo(bucket, to), to);
    var q, r := bucket / to, bucket % to;
    assert bucket == q * to + r;
    if bucket < 0 {
      if r == 0 {
        assert -bucket == (-q) * to;
        QuotientUnique(-bucket, to, -q, 0);
      } else {
        assert -bucket == (-q - 1) * to + (to - r);
        QuotientUnique(-bucket, to, -q - 1, to - r);
        assert Quo(bucket, to) == q + 1;
        assert (q + 1) * to == q * to + to;
      }
    }
  }

  /** A multiple of `to` cannot fall inside a span. */
  lemma NoMultipleInside(x: int, bucket: int, to: int)
    requires to > 0 && x % to == 0
    ensures x <= bucket <==> x <= bucket - bucket % to
  {
    if bucket - bucket % to < x <= bucket {
      var q := bucket / to;
      assert x == q * to + (x - q * to);
      QuotientUnique(x, to, q, x - q * to);
    }
  }

  /** No fold takes a row down past a multiple of the coarser span. */
  lemma FoldsUpward(from: int, to: int, cutoff: int, x: int)
    requires to > 0 && x % to == 0
    ensures NeverBack(Gone(from, cutoff), Coarser(to), x)
  {
    forall k: RowKey | Gone(from, cutoff)(k) && x <= k.bucket ensures x <= Coarser(to)(k).bucket {
      TargetIs(k.bucket, to);
      NoMultipleInside(x, k.bucket, to);
    }
  }

  /** The row is not before 1970, or starts a coarser span, or counts nothing. */
  predicate Lands(k: RowKey, t: Tally, to: int)
    requires to > 0
  {
    k.bucket >= 0 || k.bucket % to == 0 || t == NOTHING
  }

  ghost predicate AllLand(rows: Rows, from: int, to: int, cutoff: int)
    requires to > 0
  {
    forall k :: k in rows && Expired(k, from, cutoff) ==> Lands(k, rows[k], to)
  }

  lemma CrossNothing(rows: Rows, from: int, to: int, cutoff: int, line: Line, x: int)
    requires to > 0 && AllLand(rows, from, to, cutoff)
    ensures Sum(Crossing(rows, Gone(from, cutoff), Coarser(to), line, x)) == NOTHING
  {
    var c := Crossing(rows, Gone(from, cutoff), Coarser(to), line, x);
    forall k | k in c ensures c[k] == NOTHING {
      assert Expired(k, from, cutoff);
      TargetIs(k.bucket, to);
    }
    SumOfNothing(c);
  }

  /** Nothing lands outside its own span, so every aligned window keeps its total. */
  lemma FoldConserves(rows: Rows, from: int, to: int, cutoff: int, line: Line, lo: int, hi: int)
    requires to > 0 && from != to && lo % to == 0 && hi % to == 0 && lo <= hi
    requires AllLand(rows, from, to, cutoff)
    ensures Total(Fold(rows, from, to, cutoff), line, lo, hi) == Total(rows, line, lo, hi)
  {
    FoldsUpward(from, to, cutoff, lo);
    FoldsUpward(from, to, cutoff, hi);
    FoldBalance(rows, Gone(from, cutoff), Coarser(to), line, lo, hi);
    CrossNothing(rows, from, to, cutoff, line, lo);
    CrossNothing(rows, from, to, cutoff, line, hi);
  }

  lemma {:induction false} BelowAll(keys: set<RowKey>, to: int, hi: int) returns (lo: int)
    requires to > 0 && hi % to == 0
    ensures lo % to == 0 && lo <= hi && forall k :: k in keys ==> lo <= k.bucket
    decreases |keys|
  {
    if keys == {} {
      lo := hi;
    } else {
      var k :| k in keys;
      var below := BelowAll(keys - {k}, to, hi);
      MultipleOf(k.bucket / to, to);
      var start := k.bucket / to * to;
      lo := if start < below then start else below;
    }
  }

  ghost predicate Conserves(rows: Rows, rows': Rows, to: int)
    requires to > 0
  {
    forall line, lo, hi :: lo % to == 0 && hi % to == 0 && lo <= hi ==>
      Total(rows', line, lo, hi) == Total(rows, line, lo, hi)
  }

  lemma FoldLoses(rows: Rows, from: int, to: int, cutoff: int, s: RowKey) returns (lo: int)
    requires to > 0 && from != to && NonNegative(rows)
    requires s in rows && Expired(s, from, cutoff) && !Lands(s, rows[s], to)
    ensures var hi := TargetBucket(s.bucket, to);
      && lo % to == 0 && hi % to == 0 && lo <= hi
      && Total(Fold(rows, from, to, cutoff), s.line, lo, hi) != Total(rows, s.line, lo, hi)
  {
    TargetIs(s.bucket, to);
    var hi := TargetBucket(s.bucket, to);
    lo := BelowAll(rows.Keys, to, hi);
    FoldsUpward(from, to, cutoff, lo);
    FoldsUpward(from, to, cutoff, hi);
    FoldBalance(rows, Gone(from, cutoff), Coarser(to), s.line, lo, hi);
    NoneCross(rows, Gone(from, cutoff), Coarser(to), s.line, lo);
    var c := Crossing(rows, Gone(from, cutoff), Coarser(to), s.line, hi);
    assert s in c;
    SumRemove(c, s);
    SumNonNegative(c - {s});
  }

  /** A fold conserves every line's traffic in every window aligned to the coarser span if
      and only if no expired row with traffic in it lies misaligned before 1970: there the
      SQL division rounds toward zero where Bucket floors. */
  lemma FoldConservesIff(rows: Rows, from: int, to: int, cutoff: int)
    requires to > 0 && from != to && NonNegative(rows)
    ensures Conserves(rows, Fold(rows, from, to, cutoff), to) <==> AllLand(rows, from, to, cutoff)
  {
    if AllLand(rows, from, to, cutoff) {
      forall line, lo, hi | lo % to == 0 && hi % to == 0 && lo <= hi
        ensures Total(Fold(rows, from, to, cutoff), line, lo, hi) == Total(rows, line, lo, hi)
      {
        FoldConserves(rows, from, to, cutoff, line, lo, hi);
      }
    } else {
      var s :| s in rows && Expired(s, from, cutoff) && !Lands(s, rows[s], to);
      var lo := FoldLoses(rows, from, to, cutoff, s);
    }
  }

  // ---- the operations -------------------------------------------------------------------------

  datatype Delta = Delta(bucket: Time, line: Line, tally: Tally)

  function DeltaKey(d: Delta): RowKey {
    RowKey(SPAN_FINE, Ts(Bucket(d.bucket, SPAN_FINE)), d.line)
  }

  function Recorded(rows: Rows, deltas: seq<Delta>): Rows {
    if deltas == [] then rows
    else
      var d := deltas[|deltas| - 1];
      Add(Recorded(rows, deltas[..|deltas| - 1]), DeltaKey(d), d.tally)
  }

  function FoldCutoff(now: Time, retain: int, to: int): int {
    Ts(Bucket(now - retain * SECOND, to))
  }

  function FineCutoff(now: Time): int {
    FoldCutoff(now, RETAIN_FINE, SPAN_HOUR)
  }

  function HourCutoff(now: Time): int {
    FoldCutoff(now, RETAIN_HOUR, SPAN_DAY)
  }

  function DayCutoff(now: Time): int {
    Ts(now - RETAIN_DAY * SECOND)
  }

  function Expire(rows: Rows, cutoff: int): Rows {
    map k | k in rows && !Expired(k, SPAN_DAY, cutoff) :: rows[k]
  }

  /** The table when the first `done` of the three transactions of a compaction committed. */
  ghost function Compacted(rows: Rows, now: Time, done: nat): Rows {
    var fine := if done >= 1 then Fold(rows, SPAN_FINE, SPAN_HOUR, FineCutoff(now)) else rows;
    var hour := if done >= 2 then Fold(fine, SPAN_HOUR, SPAN_DAY, HourCutoff(now)) else fine;
    if done >= 3 then Expire(hour, DayCutoff(now)) else hour
  }

  lemma SourcesMove(rows: Rows, from: int, to: int, cutoff: int, s: RowKey)
    requires to > 0 && from != to && s in Sources(rows, Gone(from, cutoff))
    ensures Fold(Move(rows, s, Target(s, to)), from, to, cutoff) == Fold(rows, from, to, cutoff)
    ensures Sources(Move(rows, s, Target(s, to)), Gone(from, cutoff)) == Sources(rows, Gone(from, cutoff)) - {s}
  {
    FoldMoves(rows, Gone(from, cutoff), Coarser(to), s);
  }

  /** traffic_series and the two operations that change it. */
  class SeriesStore {
    var rows: Rows

    constructor ()
      ensures rows == map[]
    {
      rows := map[];
    }

    /** One transaction: every delta is added to its five-minute row, or (when it fails) none. */
    method RecordSeries(deltas: seq<Delta>, fails: bool) returns (ok: bool)
      modifies this
      ensures ok == (deltas == [] || !fails)
      ensures rows == if ok then Recorded(old(rows), deltas) else old(rows)
    {
      if deltas == [] {
        return true;
      }
      if fails {
        return false;
      }
      for i := 0 to |deltas|
        invariant rows == Recorded(old(rows), deltas[..i])
      {
        assert deltas[..i + 1][..i] == deltas[..i];
        rows := Add(rows, DeltaKey(deltas[i]), deltas[i].tally);
      }
      assert deltas[..|deltas|] == deltas;
      ok := true;
    }

    /** The INSERT ... SELECT and the DELETE of one fold. */
    method FoldRows(from: int, to: int, cutoff: int)
      requires to > 0 && from != to
      modifies this
      ensures rows == Fold(old(rows), from, to, cutoff)
    {
      var sources := Sources(rows, Gone(from, cutoff));
      while sources != {}
        invariant sources == Sources(rows, Gone(from, cutoff))
        invariant Fold(rows, from, to, cutoff) == Fold(old(rows), from, to, cutoff)
        decreases |sources|
      {
        var s :| s in sources;
        SourcesMove(rows, from, to, cutoff, s);
        rows := Move(rows, s, Target(s, to));
        sources := sources - {s};
      }
      FoldNothing(rows, Gone(from, cutoff), Coarser(to));
    }

    /** The first `commits` transactions commit; one that fails ends the call. */
    method CompactSeries(now: Time, commits: nat) returns (ok: bool)
      modifies this
      ensures ok == (commits >= 3)
      ensures rows == Compacted(old(rows), now, commits)
    {
      if commits < 1 {
        return false;
      }
      FoldRows(SPAN_FINE, SPAN_HOUR, FineCutoff(now));
      if commits < 2 {
        return false;
      }
      FoldRows(SPAN_HOUR, SPAN_DAY, HourCutoff(now));
      if commits < 3 {
        return false;
      }
      rows := Expire(rows, DayCutoff(now));
      ok := true;
    }
  }

  // ---- whole runs -------------------------------------------------------------------------------

  datatype Event = Record(deltas: seq<Delta>) | Compact(now: Time, done: nat)

  ghost function Apply(rows: Rows, e: Event): Rows {
    match e
    case Record(deltas) => Recorded(rows, deltas)
    case Compact(now, done) => Compacted(rows, now, done)
  }

  ghost function Run(rows: Rows, events: seq<Event>): Rows {
    if events == [] then rows
    else Apply(Run(rows, events[..|events| - 1]), events[|events| - 1])
  }

  /** Traffic of one line that the deltas carry in [lo, hi). */
  function Carried(deltas: seq<Delta>, line: Line, lo: int, hi: int): Tally {
    if deltas == [] then NOTHING
    else
      var d := deltas[|deltas| - 1];
      Carried(deltas[..|deltas| - 1], line, lo, hi).Plus(
        When(d.line == line && lo <= d.bucket / SECOND < hi, d.tally))
  }

  function CarriedIn(events: seq<Event>, line: Line, lo: int, hi: int): Tally {
    if events == [] then NOTHING
    else
      var e := events[|events| - 1];
      CarriedIn(events[..|events| - 1], line, lo, hi).Plus(CarriedBy(e, line, lo, hi))
  }

  function CarriedBy(e: Event, line: Line, lo: int, hi: int): Tally {
    if e.Record? then Carried(e.deltas, line, lo, hi) else NOTHING
  }

  predicate Since1970(rows: Rows) {
    forall k :: k in rows ==> k.bucket >= 0
  }

  /** The event records nothing before 1970, and expires nothing at or after lo. */
  predicate Spares(e: Event, lo: int) {
    match e
    case Record(deltas) => forall i :: 0 <= i < |deltas| ==> deltas[i].bucket >= 0
    case Compact(now, done) => done >= 3 ==> DayCutoff(now) <= lo
  }

  /** The five-minute row of a time since 1970. */
  lemma DeltaBucket(d: Delta)
    requires d.bucket >= 0
    ensures var b := DeltaKey(d).bucket; b % SPAN_FINE == 0 && 0 <= b <= d.bucket / SECOND < b + SPAN_FINE
  {
    BucketFloors(d.bucket, SPAN_FINE);
    var b := Bucket(d.bucket, SPAN_FINE) / SECOND;
    assert b >= 0;
    assert (b * SECOND) / SECOND == b;
  }

  lemma DeltaInWindow(d: Delta, line: Line, lo: int, hi: int)
    requires d.bucket >= 0 && lo % SPAN_FINE == 0 && hi % SPAN_FINE == 0
    ensures DeltaKey(d).bucket >= 0
    ensures InWindow(DeltaKey(d), line, lo, hi) <==> d.line == line && lo <= d.bucket / SECOND < hi
  {
    DeltaBucket(d);
    var b := DeltaKey(d).bucket;
    if b < lo { NextMultiple(b, lo, SPAN_FINE); }
    if b < hi { NextMultiple(b, hi, SPAN_FINE); }
  }

  lemma NextMultiple(a: int, b: int, span: int)
    requires span > 0 && a % span == 0 && b % span == 0 && a < b
    ensures a + span <= b
  {
    var q := a / span;
    if b < a + span {
      assert b == q * span + (b - a);
      QuotientUnique(b, span, q, b - a);
    }
  }

  lemma DeltaTotal(rows: Rows, d: Delta, base: Tally, carried: Tally, line: Line, lo: int, hi: int)
    requires Since1970(rows) && d.bucket >= 0 && lo % SPAN_FINE == 0 && hi % SPAN_FINE == 0
    requires Total(rows, line, lo, hi) == base.Plus(carried)
    ensures var rows' := Add(rows, DeltaKey(d), d.tally);
      && Since1970(rows')
      && Total(rows', line, lo, hi) ==
           base.Plus(carried.Plus(When(d.line == line && lo <= d.bucket / SECOND < hi, d.tally)))
  {
    DeltaInWindow(d, line, lo, hi);
    TotalAdd(rows, DeltaKey(d), d.tally, line, lo, hi);
    PlusMoves(base, carried, When(InWindow(DeltaKey(d), line, lo, hi), d.tally));
  }

  lemma {:induction false} RecordedTotal(rows: Rows, deltas: seq<Delta>, line: Line, lo: int, hi: int)
    requires Since1970(rows) && lo % SPAN_FINE == 0 && hi % SPAN_FINE == 0
    requires forall i :: 0 <= i < |deltas| ==> deltas[i].bucket >= 0
    ensures Since1970(Recorded(rows, deltas))
    ensures Total(Recorded(rows, deltas), line, lo, hi) == Total(rows, line, lo, hi).Plus(Carried(deltas, line, lo, hi))
  {
    if deltas == [] {
      PlusNothing(Total(rows, line, lo, hi));
    } else {
      var d, before := deltas[|deltas| - 1], deltas[..|deltas| - 1];
      RecordedTotal(rows, before, line, lo, hi);
      DeltaTotal(Recorded(rows, before), d, Total(rows, line, lo, hi), Carried(before, line, lo, hi), line, lo, hi);
    }
  }

  lemma FoldKeys(rows: Rows, from: int, to: int, cutoff: int, k: RowKey)
    requires to > 0 && k in Fold(rows, from, to, cutoff)
    ensures (k in rows && !Expired(k, from, cutoff)) ||
      exists s :: s in rows && Expired(s, from, cutoff) && k == Target(s, to)
  {
    if !(k in rows && !Expired(k, from, cutoff)) {
      var s :| s in Sources(rows, Gone(from, cutoff)) && k == Coarser(to)(s);
      assert s in rows && Expired(s, from, cutoff) && k == Target(s, to);
    }
  }

  lemma FoldSince1970(rows: Rows, from: int, to: int, cutoff: int)
    requires to > 0 && Since1970(rows)
    ensures Since1970(Fold(rows, from, to, cutoff)) && AllLand(rows, from, to, cutoff)
  {
    forall k | k in Fold(rows, from, to, cutoff) ensures k.bucket >= 0 {
      FoldKeys(rows, from, to, cutoff, k);
      if !(k in rows && !Expired(k, from, cutoff)) {
        var s :| s in rows && Expired(s, from, cutoff) && k == Target(s, to);
        TargetIs(s.bucket, to);
        NoMultipleInside(0, s.bucket, to);
      }
    }
  }

  lemma ExpireTotal(rows: Rows, cutoff: int, line: Line, lo: int, hi: int)
    requires cutoff <= lo
    ensures Total(Expire(rows, cutoff), line, lo, hi) == Total(rows, line, lo, hi)
  {
    assert Window(Expire(rows, cutoff), line, lo, hi) == Window(rows, line, lo, hi);
  }

  lemma CompactedTotal(rows: Rows, now: Time, done: nat, line: Line, lo: int, hi: int)
    requires Since1970(rows) && lo % SPAN_DAY == 0 && hi % SPAN_DAY == 0 && lo <= hi
    requires done >= 3 ==> DayCutoff(now) <= lo
    ensures Since1970(Compacted(rows, now, done))
    ensures Total(Compacted(rows, now, done), line, lo, hi) == Total(rows, line, lo, hi)
  {
    if done >= 1 {
      FoldSince1970(rows, SPAN_FINE, SPAN_HOUR, FineCutoff(now));
      FoldConserves(rows, SPAN_FINE, SPAN_HOUR, FineCutoff(now), line, lo, hi);
    }
    if done >= 2 {
      var fine := Fold(rows, SPAN_FINE, SPAN_HOUR, FineCutoff(now));
      FoldSince1970(fine, SPAN_HOUR, SPAN_DAY, HourCutoff(now));
      FoldConserves(fine, SPAN_HOUR, SPAN_DAY, HourCutoff(now), line, lo, hi);
      if done >= 3 {
        ExpireTotal(Fold(fine, SPAN_HOUR, SPAN_DAY, HourCutoff(now)), DayCutoff(now), line, lo, hi);
      }
    }
  }

  lemma EventTotal(rows: Rows, e: Event, line: Line, lo: int, hi: int)
    requires Since1970(rows) && lo % SPAN_DAY == 0 && hi % SPAN_DAY == 0 && lo <= hi && Spares(e, lo)
    ensures Since1970(Apply(rows, e))
    ensures Total(Apply(rows, e), line, lo, hi) == Total(rows, line, lo, hi).Plus(CarriedBy(e, line, lo, hi))
  {
    match e
    case Record(deltas) =>
      DayIsFine(lo);
      DayIsFine(hi);
      RecordedTotal(rows, deltas, line, lo, hi);
    case Compact(now, done) =>
      CompactedTotal(rows, now, done, line, lo, hi);
      PlusNothing(Total(rows, line, lo, hi));
  }

  lemma DayIsFine(x: int)
    requires x % SPAN_DAY == 0
    ensures x % SPAN_FINE == 0
  {
  }

  /** Over every run of recordings and compactions, whole or cut short anywhere, a window of
      whole days that nothing expired from holds exactly what it held plus what was recorded
      in it: nothing is lost and nothing is counted twice. */
  lemma {:induction false} RunConserves(rows: Rows, events: seq<Event>, line: Line, lo: int, hi: int)
    requires Since1970(rows) && lo % SPAN_DAY == 0 && hi % SPAN_DAY == 0 && lo <= hi
    requires forall i :: 0 <= i < |events| ==> Spares(events[i], lo)
    ensures Since1970(Run(rows, events))
    ensures Total(Run(rows, events), line, lo, hi) == Total(rows, line, lo, hi).Plus(CarriedIn(events, line, lo, hi))
  {
    if events == [] {
      PlusNothing(Total(rows, line, lo, hi));
    } else {
      var e, before := events[|events| - 1], events[..|events| - 1];
      RunConserves(rows, before, line, lo, hi);
      assert Spares(e, lo);
      EventTotal(Run(rows, before), e, line, lo, hi);
      PlusMoves(Total(rows, line, lo, hi), CarriedIn(before, line, lo, hi), CarriedBy(e, line, lo, hi));
    }
  }

  lemma NoSources(rows: Rows, from: int, to: int, cutoff: int)
    requires to > 0 && NoneExpired(rows, from, cutoff)
    ensures Fold(rows, from, to, cutoff) == rows
  {
    FoldNothing(rows, Gone(from, cutoff), Coarser(to));
  }

  ghost predicate NoneExpired(rows: Rows, from: int, cutoff: int) {
    forall k :: k in rows ==> !Expired(k, from, cutoff)
  }

  lemma FoldLeavesNone(rows: Rows, from: int, to: int, cutoff: int, finer: int, c: int)
    requires to > 0 && from != to
    ensures NoneExpired(Fold(rows, from, to, cutoff), from, cutoff)
    ensures finer != to && NoneExpired(rows, finer, c) ==> NoneExpired(Fold(rows, from, to, cutoff), finer, c)
  {
    forall k | k in Fold(rows, from, to, cutoff)
      ensures !Expired(k, from, cutoff)
      ensures finer != to && NoneExpired(rows, finer, c) ==> !Expired(k, finer, c)
    {
      FoldKeys(rows, from, to, cutoff, k);
    }
  }

  /** What is left once the first `done` transactions of a compaction have committed gives the
      first two nothing more to do. */
  lemma CompactedSettles(rows: Rows, now: Time, done: nat)
    ensures done >= 1 ==> NoneExpired(Compacted(rows, now, done), SPAN_FINE, FineCutoff(now))
    ensures done >= 2 ==> NoneExpired(Compacted(rows, now, done), SPAN_HOUR, HourCutoff(now))
    ensures done >= 3 ==> NoneExpired(Compacted(rows, now, done), SPAN_DAY, DayCutoff(now))
  {
    FoldLeavesNone(rows, SPAN_FINE, SPAN_HOUR, FineCutoff(now), SPAN_FINE, FineCutoff(now));
    var fine := Fold(rows, SPAN_FINE, SPAN_HOUR, FineCutoff(now));
    FoldLeavesNone(fine, SPAN_HOUR, SPAN_DAY, HourCutoff(now), SPAN_FINE, FineCutoff(now));
  }

  /** A compaction stopped after any of its transactions and run again comes to exactly what
      one that was never stopped comes to. */
  lemma ResumeIsExact(rows: Rows, now: Time, done: nat)
    ensures Compacted(Compacted(rows, now, done), now, 3) == Compacted(rows, now, 3)
  {
    var last := Compacted(rows, now, done);
    CompactedSettles(rows, now, done);
    if done >= 1 {
      NoSources(last, SPAN_FINE, SPAN_HOUR, FineCutoff(now));
    }
    if done >= 2 {
      NoSources(last, SPAN_HOUR, SPAN_DAY, HourCutoff(now));
    }
    if done >= 3 {
      assert Expire(last, DayCutoff(now)) == last;
      assert last == Compacted(rows, now, 3);
    }
  }

  // ---- the tiers partition time ---------------------------------------------------------------

  /** Every row lies on the grid of its span, and the two cutoffs part the tiers. */
  ghost predicate Tiered(rows: Rows, fine: int, hour: int) {
    && fine % SPAN_HOUR == 0 && hour % SPAN_DAY == 0 && hour <= fine
    && forall k :: k in rows ==> InTier(k, fine, hour)
  }

  predicate InTier(k: RowKey, fine: int, hour: int) {
    && k.bucket >= 0
    && (k.span == SPAN_FINE || k.span == SPAN_HOUR || k.span == SPAN_DAY)
    && k.bucket % k.span == 0
    && (k.span == SPAN_FINE ==> fine <= k.bucket)
    && (k.span == SPAN_HOUR ==> hour <= k.bucket < fine)
    && (k.span == SPAN_DAY ==> k.bucket < hour)
  }

  /** No moment is covered by rows of two tiers. */
  ghost predicate Disjoint(rows: Rows) {
    forall k, j :: k in rows && j in rows && k.span < j.span ==> j.bucket + j.span <= k.bucket
  }

  lemma TieredDisjoint(rows: Rows, fine: int, hour: int)
    requires Tiered(rows, fine, hour)
    ensures Disjoint(rows)
  {
    forall k, j | k in rows && j in rows && k.span < j.span ensures j.bucket + j.span <= k.bucket {
      if j.span == SPAN_HOUR {
        NextMultiple(j.bucket, fine, SPAN_HOUR);
      } else {
        NextMultiple(j.bucket, hour, SPAN_DAY);
      }
    }
  }

  /** What the clock and the deltas must do: now never goes back, and no delta is older than
      the last fold's cutoff. */
  datatype Clock = Clock(now: Time, fine: int, hour: int)

  ghost predicate Timely(c: Clock, e: Event) {
    match e
    case Record(deltas) =>
      forall i :: 0 <= i < |deltas| ==> deltas[i].bucket >= 0 && c.fine <= deltas[i].bucket / SECOND
    case Compact(now, _) => c.now <= now
  }

  ghost function Tick(c: Clock, e: Event): Clock {
    match e
    case Record(_) => c
    case Compact(now, done) =>
      Clock(now, if done >= 1 then FineCutoff(now) else c.fine, if done >= 2 then HourCutoff(now) else c.hour)
  }

  ghost function Ticks(c: Clock, events: seq<Event>): Clock {
    if events == [] then c
    else Tick(Ticks(c, events[..|events| - 1]), events[|events| - 1])
  }

  ghost predicate AllTimely(c: Clock, events: seq<Event>) {
    forall i :: 0 <= i < |events| ==> Timely(Ticks(c, events[..i]), events[i])
  }

  ghost predicate Sane(c: Clock) {
    c.now >= 0 && c.fine <= FineCutoff(c.now) && c.hour <= HourCutoff(c.now)
  }

  lemma CutoffIs(now: Time, retain: int, to: int)
    requires now >= 0 && 0 <= retain <= RETAIN_DAY && 0 < to <= SPAN_DAY
    ensures var c, t := FoldCutoff(now, retain, to), (now - retain * SECOND) / SECOND;
      c % to == 0 && c <= t < c + to
  {
    BucketFloors(now - retain * SECOND, to);
  }

  /** Cutoffs only advance, and the hour cutoff stays behind the fine one. */
  lemma CutoffsAdvance(before: Time, now: Time)
    requires 0 <= before <= now
    ensures FineCutoff(before) <= FineCutoff(now) && HourCutoff(before) <= HourCutoff(now)
    ensures HourCutoff(now) <= FineCutoff(now)
    ensures FineCutoff(now) % SPAN_HOUR == 0 && HourCutoff(now) % SPAN_DAY == 0
  {
    CutoffIs(before, RETAIN_FINE, SPAN_HOUR);
    CutoffIs(now, RETAIN_FINE, SPAN_HOUR);
    CutoffIs(before, RETAIN_HOUR, SPAN_DAY);
    CutoffIs(now, RETAIN_HOUR, SPAN_DAY);
    if FineCutoff(now) < FineCutoff(before) {
      NextMultiple(FineCutoff(now), FineCutoff(before), SPAN_HOUR);
    }
    if HourCutoff(now) < HourCutoff(before) {
      NextMultiple(HourCutoff(now), HourCutoff(before), SPAN_DAY);
    }
  }

  lemma FoldFineTiered(rows: Rows, fine: int, hour: int, cutoff: int)
    requires Tiered(rows, fine, hour) && fine <= cutoff && cutoff % SPAN_HOUR == 0
    ensures Tiered(Fold(rows, SPAN_FINE, SPAN_HOUR, cutoff), cutoff, hour)
  {
    forall k | k in Fold(rows, SPAN_FINE, SPAN_HOUR, cutoff) ensures InTier(k, cutoff, hour) {
      FoldKeys(rows, SPAN_FINE, SPAN_HOUR, cutoff, k);
      if !(k in rows && !Expired(k, SPAN_FINE, cutoff)) {
        var s :| s in rows && Expired(s, SPAN_FINE, cutoff) && k == Target(s, SPAN_HOUR);
        TargetIs(s.bucket, SPAN_HOUR);
        NoMultipleInside(fine, s.bucket, SPAN_HOUR);
        NoMultipleInside(0, s.bucket, SPAN_HOUR);
      }
    }
  }

  lemma FoldHourTiered(rows: Rows, fine: int, hour: int, cutoff: int)
    requires Tiered(rows, fine, hour) && hour <= cutoff <= fine && cutoff % SPAN_DAY == 0
    ensures Tiered(Fold(rows, SPAN_HOUR, SPAN_DAY, cutoff), fine, cutoff)
  {
    forall k | k in Fold(rows, SPAN_HOUR, SPAN_DAY, cutoff) ensures InTier(k, fine, cutoff) {
      FoldKeys(rows, SPAN_HOUR, SPAN_DAY, cutoff, k);
      if !(k in rows && !Expired(k, SPAN_HOUR, cutoff)) {
        var s :| s in rows && Expired(s, SPAN_HOUR, cutoff) && k == Target(s, SPAN_DAY);
        TargetIs(s.bucket, SPAN_DAY);
        NoMultipleInside(0, s.bucket, SPAN_DAY);
      }
    }
  }

  lemma CompactTiered(rows: Rows, c: Clock, now: Time, done: nat)
    requires Sane(c) && c.now <= now && Tiered(rows, c.fine, c.hour)
    ensures var c' := Tick(c, Compact(now, done));
      Sane(c') && Tiered(Compacted(rows, now, done), c'.fine, c'.hour)
  {
    CutoffsAdvance(c.now, now);
    if done >= 1 {
      FoldFineTiered(rows, c.fine, c.hour, FineCutoff(now));
    }
    if done >= 2 {
      FoldHourTiered(Fold(rows, SPAN_FINE, SPAN_HOUR, FineCutoff(now)), FineCutoff(now), c.hour, HourCutoff(now));
    }
  }

  lemma DeltaInTier(d: Delta, c: Clock)
    requires d.bucket >= 0 && c.fine <= d.bucket / SECOND && c.fine % SPAN_HOUR == 0
    ensures InTier(DeltaKey(d), c.fine, c.hour)
  {
    DeltaBucket(d);
    if DeltaKey(d).bucket < c.fine {
      NextMultiple(DeltaKey(d).bucket, c.fine, SPAN_FINE);
    }
  }

  lemma {:induction false} RecordTiered(rows: Rows, deltas: seq<Delta>, c: Clock)
    requires Tiered(rows, c.fine, c.hour) && Timely(c, Record(deltas))
    ensures Tiered(Recorded(rows, deltas), c.fine, c.hour)
  {
    if deltas != [] {
      var d, before := deltas[|deltas| - 1], deltas[..|deltas| - 1];
      RecordTiered(rows, before, c);
      DeltaInTier(d, c);
    }
  }

  /** After every run on a clock that never goes back, with no delta older than the last fold,
      each row starts on its own grid and no moment is covered by two tiers. */
  lemma {:induction false} TiersPartitionTime(rows: Rows, events: seq<Event>, c: Clock)
    requires Sane(c) && Tiered(rows, c.fine, c.hour) && AllTimely(c, events)
    ensures var c' := Ticks(c, events); Sane(c') && Tiered(Run(rows, events), c'.fine, c'.hour)
    ensures Disjoint(Run(rows, events))
  {
    if events != [] {
      var e, before := events[|events| - 1], events[..|events| - 1];
      assert forall i :: 0 <= i < |before| ==> before[..i] == events[..i];
      TiersPartitionTime(rows, before, c);
      assert Timely(Ticks(c, before), e);
      match e
      case Record(deltas) => RecordTiered(Run(rows, before), deltas, Ticks(c, before));
      case Compact(now, done) => CompactTiered(Run(rows, before), Ticks(c, before), now, done);
    }
    TieredDisjoint(Run(rows, events), Ticks(c, events).fine, Ticks(c, events).hour);
  }
}
