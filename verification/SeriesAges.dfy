/** How long each resolution of the traffic series lasts, in seconds. */
module SeriesAges {
  import opened Types
  import opened Folds
  import opened Series

  /** Whole seconds from the start of a row to now. */
  function Age(k: RowKey, now: Time): int {
    now / 1_000_000_000 - k.bucket
  }

  /** Five minutes for two days, hours for thirty days, days for two years of 365. */
  predicate Lasts(k: RowKey, now: Time) {
    && (k.span == 300 ==> Age(k, now) <= 172_800)
    && (k.span == 3600 ==> Age(k, now) <= 2_592_000)
    && (k.span == 86_400 ==> Age(k, now) <= 63_072_000)
  }

  /** No row outlasts its resolution by a span of the next one. */
  predicate Overdue(k: RowKey, now: Time) {
    || (k.span == 300 && Age(k, now) >= 172_800 + 3600)
    || (k.span == 3600 && Age(k, now) >= 2_592_000 + 86_400)
    || (k.span == 86_400 && Age(k, now) > 63_072_000)
  }

  lemma CutoffAges(now: Time)
    requires now >= 0
    ensures var t := now / 1_000_000_000;
      && FineCutoff(now) <= t - 172_800 < FineCutoff(now) + 3600
      && HourCutoff(now) <= t - 2_592_000 < HourCutoff(now) + 86_400
      && DayCutoff(now) == t - 63_072_000
  {
    CutoffIs(now, RETAIN_FINE, SPAN_HOUR);
    CutoffIs(now, RETAIN_HOUR, SPAN_DAY);
    assert (now - 172_800 * SECOND) / SECOND == now / SECOND - 172_800;
    assert (now - 2_592_000 * SECOND) / SECOND == now / SECOND - 2_592_000;
    assert (now - 63_072_000 * SECOND) / SECOND == now / SECOND - 63_072_000;
  }

  lemma StaysInFold(rows: Rows, from: int, to: int, cutoff: int, k: RowKey)
    requires to > 0 && k in rows && !Expired(k, from, cutoff)
    ensures k in Fold(rows, from, to, cutoff)
    ensures k.span != to ==> Fold(rows, from, to, cutoff)[k] == rows[k]
  {
    if k.span != to {
      assert Group(rows, Gone(from, cutoff), Coarser(to), k) == map[];
    }
  }

  /** A compaction, whole or cut short, removes no row within its resolution's time, and leaves
      five-minute rows that young as they are. */
  lemma YoungRowsStay(rows: Rows, now: Time, done: nat, k: RowKey)
    requires now >= 0 && k in rows && Lasts(k, now)
    ensures k in Compacted(rows, now, done)
    ensures k.span == 300 ==> Compacted(rows, now, done)[k] == rows[k]
  {
    CutoffAges(now);
    StaysInFold(rows, SPAN_FINE, SPAN_HOUR, FineCutoff(now), k);
    StaysInFold(Fold(rows, SPAN_FINE, SPAN_HOUR, FineCutoff(now)), SPAN_HOUR, SPAN_DAY, HourCutoff(now), k);
  }

  /** A whole compaction leaves no overdue row. */
  lemma OldRowsGo(rows: Rows, now: Time, k: RowKey)
    requires now >= 0 && k in Compacted(rows, now, 3)
    ensures !Overdue(k, now)
  {
    CutoffAges(now);
    CompactedSettles(rows, now, 3);
  }

  /** What is overdue at one resolution is a row of the next: the hour, or the day, that it began
      in. */
  lemma OldRowsFold(rows: Rows, now: Time, k: RowKey)
    requires now >= 0 && k in rows && k.bucket >= 0 && Overdue(k, now)
    ensures k.span == 300 ==> RowKey(3600, k.bucket - k.bucket % 3600, k.line) in Compacted(rows, now, 1)
    ensures k.span == 3600 ==> RowKey(86_400, k.bucket - k.bucket % 86_400, k.line) in Compacted(rows, now, 2)
  {
    CutoffAges(now);
    if k.span == 300 {
      LandsIn(rows, SPAN_FINE, SPAN_HOUR, FineCutoff(now), k);
    } else if k.span == 3600 {
      var fine := Fold(rows, SPAN_FINE, SPAN_HOUR, FineCutoff(now));
      StaysInFold(rows, SPAN_FINE, SPAN_HOUR, FineCutoff(now), k);
      LandsIn(fine, SPAN_HOUR, SPAN_DAY, HourCutoff(now), k);
    }
  }

  lemma LandsIn(rows: Rows, from: int, to: int, cutoff: int, k: RowKey)
    requires to > 0 && k in rows && Expired(k, from, cutoff) && k.bucket >= 0
    ensures RowKey(to, k.bucket - k.bucket % to, k.line) in Fold(rows, from, to, cutoff)
  {
    TargetIs(k.bucket, to);
    assert k in Sources(rows, Gone(from, cutoff)) && Coarser(to)(k) == RowKey(to, k.bucket - k.bucket % to, k.line);
  }

  /** Of the last two years, whole days keep their traffic to the byte. */
  lemma TwoYearsKept(rows: Rows, now: Time, done: nat, line: Line, lo: int, hi: int)
    requires now >= 0 && Since1970(rows) && lo % 86_400 == 0 && hi % 86_400 == 0 && lo <= hi
    requires now / 1_000_000_000 - lo <= 63_072_000
    ensures Total(Compacted(rows, now, done), line, lo, hi) == Total(rows, line, lo, hi)
  {
    CutoffAges(now);
    CompactedTotal(rows, now, done, line, lo, hi);
  }
}
