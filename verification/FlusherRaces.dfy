/** Runs that show each hypothesis about reads is needed. In each the read answers what the
    plain map does not hold, or never held while the read was in progress. */
module FlusherRaces {
  import opened Types
  import opened Flusher
  import opened FlusherReads

  ghost predicate AllReturned(s: State) {
    && s.store.pending == map[] && s.store.batch == map[]
    && forall t :: t in s.threads ==> Over(s.threads[t].pc)
  }

  predicate Over(pc: Pc) {
    pc.Returned? || pc.Got? || pc.Skipped?
  }

  /** The run so far, extended by one step. */
  lemma Extend(states: seq<State>, labels: seq<Label>, l: Label)
    returns (states': seq<State>, labels': seq<Label>)
    requires Run(states, labels) && Enabled(states[|labels|], l)
    ensures Run(states', labels')
    ensures labels' == labels + [l] && states' == states + [Next(states[|labels|], l)]
  {
    states', labels' := states + [Next(states[|labels|], l)], labels + [l];
    forall i {:trigger labels'[i]} | 0 <= i < |labels'|
      ensures Enabled(states'[i], labels'[i]) && states'[i + 1] == Next(states'[i], labels'[i])
    {
      if i < |labels| {
        assert labels'[i] == labels[i];
      }
    }
  }

  lemma Start() returns (states: seq<State>, labels: seq<Label>)
    ensures Run(states, labels) && labels == [] && states == [EMPTY]
  {
    states, labels := [EMPTY], [];
  }

  /** One undisturbed Flush of what is queued. */
  lemma FlushNow(states: seq<State>, labels: seq<Label>, t: Tid)
    returns (states': seq<State>, labels': seq<Label>)
    requires Run(states, labels)
    requires var s := states[|labels|];
      && t !in s.threads && s.holder.None? && s.poolsOpen && s.store.pending != map[]
    ensures Run(states', labels')
    ensures var s := states[|labels|];
      states'[|labels'|] == s.(
        store := LandBatch(Detach(s.store)),
        threads := s.threads[t := Thread(Flush, |s.store.log|, Returned(true))])
  {
    var s := states[|labels|];
    states', labels' := Extend(states, labels, Begin(t, Flush));
    states', labels' := Extend(states', labels', Grab(t));
    states', labels' := Extend(states', labels', Land(t));
    assert states'[|labels'|].threads == s.threads[t := Thread(Flush, |s.store.log|, Returned(true))];
  }

  /** The key k holding c, written, flushed and gone from the cache. */
  function Stored(k: Key, c: Content): State {
    State(Store([Queued(k, c)], map[], map[], map[k := Row(0, c)]), None, map[],
          map[0 := Thread(Flush, 1, Returned(true))], false, true)
  }

  lemma StoreOne(k: Key, c: Content) returns (states: seq<State>, labels: seq<Label>)
    ensures Run(states, labels) && states[|labels|] == Stored(k, c)
  {
    states, labels := Start();
    states, labels := Extend(states, labels, PutEntry(k, c));
    assert k in states[|labels|].store.pending;
    states, labels := FlushNow(states, labels, 0);
    states, labels := Extend(states, labels, Lapse(k));
    assert states[|labels|].cache == map[];
  }

  /** One row of k queued, another cached, every call returned. */
  ghost predicate Split(s: State, k: Key, queued: Content, cached: Content) {
    && s.store.pending.Keys == {k} && s.store.pending[k].content == queued && s.store.batch == map[]
    && k in s.cache && s.cache[k].content == cached
    && s.holder.None? && s.poolsOpen && 9 !in s.threads
    && forall t :: t in s.threads ==> Over(s.threads[t].pc)
  }

  /** The flush that follows leaves table and cache apart. */
  lemma FlushSplit(before: seq<State>, done: seq<Label>, k: Key, queued: Content, cached: Content)
    returns (states: seq<State>, labels: seq<Label>)
    requires Run(before, done) && Split(before[|done|], k, queued, cached)
    ensures Run(states, labels) && AllReturned(states[|labels|])
    ensures var s := states[|labels|];
      Answer(s, k).Some? && Answer(s, k).value.content == cached
      && k in Abstract(s.store) && Abstract(s.store)[k].content == queued
  {
    assert k in before[|done|].store.pending;
    states, labels := FlushNow(before, done, 9);
  }

  lemma FillLate(k: Key, first: Content, second: Content) returns (states: seq<State>, labels: seq<Label>)
    ensures Run(states, labels) && Split(states[|labels|], k, second, first)
  {
    states, labels := StoreOne(k, first);
    states, labels := Extend(states, labels, Begin(1, Get(k)));
    states, labels := Extend(states, labels, Look(1));
    states, labels := Extend(states, labels, ReadRow(1));
    states, labels := Extend(states, labels, PutEntry(k, second));
    states, labels := Extend(states, labels, Fill(1));
  }

  /** A write of `first` lands in the table; then a read misses the cache, fetches that row,
      and fills the cache with it only after a newer write has been queued. */
  lemma StaleFill(k: Key, first: Content, second: Content)
    returns (states: seq<State>, labels: seq<Label>)
    requires first != second
    ensures Run(states, labels) && AllReturned(states[|labels|])
    ensures var s := states[|labels|];
      Answer(s, k).Some? && Answer(s, k).value.content == first
      && k in Abstract(s.store) && Abstract(s.store)[k].content == second
  {
    states, labels := FillLate(k, first, second);
    states, labels := FlushSplit(states, labels, k, second, first);
  }

  lemma CommitOver(k: Key, queued: Content, committed: Content) returns (states: seq<State>, labels: seq<Label>)
    ensures Run(states, labels) && Split(states[|labels|], k, queued, committed)
  {
    states, labels := Start();
    states, labels := Extend(states, labels, Begin(0, Commit(k, committed)));
    states, labels := Extend(states, labels, Grab(0));
    states, labels := Extend(states, labels, PutEntry(k, queued));
    states, labels := Extend(states, labels, Tx(0, true));
    states, labels := Extend(states, labels, CacheStep(0));
  }

  /** CommitEntry does not hold flushMu across its transaction: a write queued between its
      flush and its transaction ends up in the table, its own entry in the cache. */
  lemma CommitRace(k: Key, queued: Content, committed: Content)
    returns (states: seq<State>, labels: seq<Label>)
    requires queued != committed
    ensures Run(states, labels) && AllReturned(states[|labels|])
    ensures var s := states[|labels|];
      Answer(s, k).Some? && Answer(s, k).value.content == committed
      && k in Abstract(s.store) && Abstract(s.store)[k].content == queued
  {
    states, labels := CommitOver(k, queued, committed);
    states, labels := FlushSplit(states, labels, k, queued, committed);
  }

  lemma PutOverCommit(k: Key, committed: Content, queued: Content) returns (states: seq<State>, labels: seq<Label>)
    ensures Run(states, labels) && Split(states[|labels|], k, queued, committed)
  {
    states, labels := Start();
    states, labels := Extend(states, labels, Begin(0, Commit(k, committed)));
    states, labels := Extend(states, labels, Grab(0));
    states, labels := Extend(states, labels, Tx(0, true));
    states, labels := Extend(states, labels, PutEntry(k, queued));
    states, labels := Extend(states, labels, CacheStep(0));
  }

  /** Nor does it hold mu from its transaction to its cache step: a write queued in between is
      hidden by the committed entry, which the cache receives last. */
  lemma CommitOvertaken(k: Key, committed: Content, queued: Content)
    returns (states: seq<State>, labels: seq<Label>)
    requires queued != committed
    ensures Run(states, labels) && AllReturned(states[|labels|])
    ensures var s := states[|labels|];
      Answer(s, k).Some? && Answer(s, k).value.content == committed
      && k in Abstract(s.store) && Abstract(s.store)[k].content == queued
  {
    states, labels := PutOverCommit(k, committed, queued);
    states, labels := FlushSplit(states, labels, k, queued, committed);
  }

  /** CommitEntry has flushed, with nothing queued. */
  lemma CommitFlushed(k: Key, c: Content) returns (states: seq<State>, labels: seq<Label>)
    ensures Run(states, labels)
    ensures states[|labels|] == EMPTY.(threads := map[0 := Thread(Commit(k, c), 0, Flushed)])
  {
    states, labels := Start();
    states, labels := Extend(states, labels, Begin(0, Commit(k, c)));
    states, labels := Extend(states, labels, Grab(0));
  }

  /** Every call has returned, k is gone from queue, batch and table, and still it is answered. */
  ghost predicate GoneYetAnswered(s: State, k: Key) {
    AllReturned(s) && k !in Abstract(s.store) && Answer(s, k).Some?
  }

  /** A delete that holds flushMu before a commit's transaction takes the committed row from the
      table; the commit then caches it. */
  lemma CommitUnderDelete(k: Key, c: Content) returns (states: seq<State>, labels: seq<Label>)
    ensures Run(states, labels) && GoneYetAnswered(states[|labels|], k)
    ensures At(states[|labels|], 0, Returned(true)) && At(states[|labels|], 1, Returned(true))
  {
    states, labels := CommitFlushed(k, c);
    states, labels := Extend(states, labels, Begin(1, Delete(k)));
    states, labels := Extend(states, labels, Grab(1));
    states, labels := Extend(states, labels, Tx(0, true));
    states, labels := Extend(states, labels, DeleteRow(1, true));
    states, labels := Extend(states, labels, CacheStep(0));
  }

  /** The commit's transaction has landed; its cache step is outstanding. */
  lemma CommitLands(k: Key, c: Content) returns (states: seq<State>, labels: seq<Label>)
    ensures Run(states, labels)
    ensures states[|labels|] == EMPTY.(
      store := Store([Committed(k, c)], map[], map[], map[k := Row(0, c)]),
      threads := map[0 := Thread(Commit(k, c), 0, Landed(0))])
  {
    states, labels := CommitFlushed(k, c);
    states, labels := Extend(states, labels, Tx(0, true));
  }

  /** So does a delete between a commit's transaction and its cache step. */
  lemma DeleteInCommitGap(k: Key, c: Content) returns (states: seq<State>, labels: seq<Label>)
    ensures Run(states, labels) && GoneYetAnswered(states[|labels|], k)
    ensures At(states[|labels|], 0, Returned(true)) && At(states[|labels|], 1, Returned(true))
  {
    states, labels := CommitLands(k, c);
    states, labels := Extend(states, labels, Begin(1, Delete(k)));
    states, labels := Extend(states, labels, Grab(1));
    states, labels := Extend(states, labels, DeleteRow(1, true));
    states, labels := Extend(states, labels, CacheStep(0));
  }

  /** A call whose transaction removes k. */
  predicate Removes(call: Call, k: Key) {
    call == Evict(k) || call == DropProject(k.project)
  }

  lemma RemovalLands(k: Key, c: Content, call: Call) returns (states: seq<State>, labels: seq<Label>)
    requires Removes(call, k)
    ensures Run(states, labels)
    ensures var s := states[|labels|];
      && s.store.pending == map[] && s.store.batch == map[] && s.store.table == map[] && s.cache == map[]
      && s.threads.Keys == {0, 1} && s.threads[0] == Thread(Commit(k, c), 0, Landed(0))
      && s.threads[1].call == call && s.threads[1].pc.Landed?
  {
    states, labels := CommitLands(k, c);
    states, labels := Extend(states, labels, Begin(1, call));
    states, labels := Extend(states, labels, Grab(1));
    states, labels := Extend(states, labels, Tx(1, true));
    assert states[|labels|].store.table == map[];
  }

  /** And an eviction, or the deletion of the project. */
  lemma RemovalInCommitGap(k: Key, c: Content, call: Call) returns (states: seq<State>, labels: seq<Label>)
    requires Removes(call, k)
    ensures Run(states, labels) && GoneYetAnswered(states[|labels|], k)
    ensures At(states[|labels|], 0, Returned(true)) && At(states[|labels|], 1, Returned(true))
    ensures states[|labels|].threads[1].call == call
  {
    states, labels := RemovalLands(k, c, call);
    states, labels := Extend(states, labels, CacheStep(1));
    states, labels := Extend(states, labels, CacheStep(0));
  }

  /** The key k holds `first` in the table, and `second` is in flight and gone from the cache. */
  lemma InFlight(k: Key, first: Content, second: Content) returns (states: seq<State>, labels: seq<Label>)
    ensures Run(states, labels)
    ensures var s := states[|labels|];
      && s.store.pending == map[] && s.store.batch == map[k := Row(1, second)]
      && s.store.table == map[k := Row(0, first)]
      && s.cache == map[] && s.holder == Some(1) && s.poolsOpen
      && s.threads.Keys == {0, 1} && s.threads[0].pc.Returned? && s.threads[1] == Thread(Flush, 2, Writing)
  {
    states, labels := StoreOne(k, first);
    states, labels := Extend(states, labels, PutEntry(k, second));
    states, labels := Extend(states, labels, Lapse(k));
    assert states[|labels|].cache == map[] && k in states[|labels|].store.pending;
    states, labels := Extend(states, labels, Begin(1, Flush));
    states, labels := Extend(states, labels, Grab(1));
  }

  /** A read that finds the table's row while a newer one is in flight caches it for good. */
  lemma FillUnderFlight(k: Key, first: Content, second: Content)
    returns (states: seq<State>, labels: seq<Label>)
    requires first != second
    ensures Run(states, labels) && AllReturned(states[|labels|])
    ensures var s := states[|labels|];
      Answer(s, k).Some? && Answer(s, k).value.content == first
      && k in Abstract(s.store) && Abstract(s.store)[k].content == second
  {
    states, labels := InFlight(k, first, second);
    states, labels := Extend(states, labels, Begin(2, Get(k)));
    states, labels := Extend(states, labels, Look(2));
    states, labels := Extend(states, labels, ReadRow(2));
    states, labels := Extend(states, labels, Fill(2));
    states, labels := Extend(states, labels, Land(1));
  }

  /** A key whose row is in flight and no longer cached is not found. */
  lemma InFlightUnseen(k: Key, c: Content) returns (states: seq<State>, labels: seq<Label>)
    ensures Run(states, labels)
    ensures var s := states[|labels|];
      Answer(s, k).None? && k in Abstract(s.store) && Abstract(s.store)[k].content == c
  {
    states, labels := Start();
    states, labels := Extend(states, labels, PutEntry(k, c));
    states, labels := Extend(states, labels, Lapse(k));
    states, labels := Extend(states, labels, Begin(0, Flush));
    assert k in states[|labels|].store.pending;
    states, labels := Extend(states, labels, Grab(0));
  }

  /** DeleteEntry has dropped k from pending and cache; its DELETE has not run. */
  lemma DeleteUnderWay(k: Key, c: Content) returns (states: seq<State>, labels: seq<Label>)
    ensures Run(states, labels)
    ensures states[|labels|] == State(
      Store([Queued(k, c), Unqueued(k)], map[], map[], map[k := Row(0, c)]), Some(1), map[],
      map[0 := Thread(Flush, 1, Returned(true)), 1 := Thread(Delete(k), 1, Dropping)], false, true)
  {
    states, labels := StoreOne(k, c);
    states, labels := Extend(states, labels, Begin(1, Delete(k)));
    states, labels := Extend(states, labels, Grab(1));
    ghost var s := states[|labels|];
    assert s.store.log == [Queued(k, c), Unqueued(k)];
    assert s.store.pending == map[] && s.cache == map[];
  }

  /** DeleteEntry empties the cache before its DELETE. A read in between puts the doomed row
      back, and the key answers after the delete has returned. */
  lemma DeletedYetAnswered(k: Key, c: Content)
    returns (states: seq<State>, labels: seq<Label>)
    ensures Run(states, labels) && AllReturned(states[|labels|])
    ensures var s := states[|labels|];
      && 1 in s.threads && s.threads[1].call == Delete(k) && At(s, 1, Returned(true))
      && k !in Abstract(s.store) && Answer(s, k).Some?
  {
    states, labels := DeleteUnderWay(k, c);
    states, labels := Extend(states, labels, Begin(2, Get(k)));
    states, labels := Extend(states, labels, Look(2));
    states, labels := Extend(states, labels, ReadRow(2));
    states, labels := Extend(states, labels, Fill(2));
    states, labels := Extend(states, labels, DeleteRow(1, true));
  }

  // ---- reads that answer what was never current -------------------------------------------------

  /** k has been stored, then evicted; the eviction's cache step is outstanding. */
  lemma EvictionLands(k: Key, c: Content) returns (states: seq<State>, labels: seq<Label>)
    ensures Run(states, labels)
    ensures var s := states[|labels|];
      && s.store.pending == map[] && s.store.batch == map[] && s.store.table == map[]
      && s.cache == map[k := Row(0, c)] && s.threads.Keys == {0, 1} && s.threads[1].pc.Landed?
  {
    states, labels := Start();
    states, labels := Extend(states, labels, PutEntry(k, c));
    assert k in states[|labels|].store.pending;
    states, labels := FlushNow(states, labels, 0);
    states, labels := Extend(states, labels, Begin(1, Evict(k)));
    states, labels := Extend(states, labels, Grab(1));
    states, labels := Extend(states, labels, Tx(1, true));
    assert states[|labels|].store.table == map[];
  }

  /** While call t lasts, the plain map holds a row of k, or it holds none. */
  ghost predicate Throughout(states: seq<State>, t: Tid, k: Key, some: bool) {
    forall m :: 0 <= m < |states| && t in states[m].threads ==> (k in Abstract(states[m].store) <==> some)
  }

  /** A call that is not there yet was never there. */
  lemma {:induction false} NotBegun(states: seq<State>, labels: seq<Label>, n: nat, m: nat, t: Tid)
    requires Run(states, labels) && m <= n < |states| && t !in states[n].threads
    ensures t !in states[m].threads
  {
    if m < n {
      assert Enabled(states[n - 1], labels[n - 1]) && states[n] == Next(states[n - 1], labels[n - 1]);
      NotBegun(states, labels, n - 1, m, t);
    }
  }

  lemma NoneBegun(states: seq<State>, labels: seq<Label>, t: Tid, k: Key, some: bool)
    requires Run(states, labels) && t !in states[|labels|].threads
    ensures Throughout(states, t, k, some)
  {
    forall m | 0 <= m < |states| ensures t !in states[m].threads {
      NotBegun(states, labels, |labels|, m, t);
    }
  }

  lemma ExtendWhile(states: seq<State>, labels: seq<Label>, l: Label, t: Tid, k: Key, some: bool)
    returns (states': seq<State>, labels': seq<Label>)
    requires Run(states, labels) && Enabled(states[|labels|], l) && Throughout(states, t, k, some)
    requires k in Abstract(Next(states[|labels|], l).store) <==> some
    ensures Run(states', labels') && Throughout(states', t, k, some)
    ensures labels' == labels + [l] && states'[|labels'|] == Next(states[|labels|], l)
  {
    states', labels' := Extend(states, labels, l);
  }

  /** A read that begins after an eviction's transaction and before its cache step answers the
      evicted row, which the plain map held at no moment of the read. */
  lemma EvictedYetAnswered(k: Key, c: Content) returns (states: seq<State>, labels: seq<Label>)
    ensures Run(states, labels) && Throughout(states, 2, k, false)
    ensures var s := states[|labels|];
      2 in s.threads && s.threads[2].call == Get(k) && s.threads[2].pc == Got(Some(Row(0, c)))
  {
    states, labels := EvictionLands(k, c);
    NoneBegun(states, labels, 2, k, false);
    states, labels := ExtendWhile(states, labels, Begin(2, Get(k)), 2, k, false);
    states, labels := ExtendWhile(states, labels, Look(2), 2, k, false);
  }

  /** k is stored and not cached; a read of it has missed, and an eviction of it has flushed. */
  lemma MissThenFlush(k: Key, c: Content) returns (states: seq<State>, labels: seq<Label>)
    ensures Run(states, labels) && Throughout(states, 1, k, true)
    ensures var s := states[|labels|];
      && s.store == Stored(k, c).store && s.poolsOpen && !s.closed
      && s.threads.Keys == {0, 1, 2}
      && s.threads[1] == Thread(Get(k), 1, Missed) && s.threads[2] == Thread(Evict(k), 1, Flushed)
  {
    states, labels := StoreOne(k, c);
    NoneBegun(states, labels, 1, k, true);
    states, labels := ExtendWhile(states, labels, Begin(1, Get(k)), 1, k, true);
    states, labels := ExtendWhile(states, labels, Look(1), 1, k, true);
    states, labels := ExtendWhile(states, labels, Begin(2, Evict(k)), 1, k, true);
    states, labels := ExtendWhile(states, labels, Grab(2), 1, k, true);
  }

  lemma EvictBeneath(k: Key, first: Content, second: Content) returns (states: seq<State>, labels: seq<Label>)
    ensures Run(states, labels) && Throughout(states, 1, k, true)
    ensures var s := states[|labels|];
      && k in s.store.pending && s.store.table == map[] && s.poolsOpen
      && 1 in s.threads && s.threads[1] == Thread(Get(k), 1, Missed)
  {
    states, labels := MissThenFlush(k, first);
    states, labels := ExtendWhile(states, labels, PutEntry(k, second), 1, k, true);
    states, labels := ExtendWhile(states, labels, Tx(2, true), 1, k, true);
    assert states[|labels|].store.table == map[];
  }

  /** A write queued between an eviction's flush and its transaction is not evicted, but a read
      that has missed before the write and reads the table after the eviction answers that
      there is nothing, though the plain map held a row throughout. */
  lemma RemovedBeneath(k: Key, first: Content, second: Content) returns (states: seq<State>, labels: seq<Label>)
    ensures Run(states, labels) && Throughout(states, 1, k, true)
    ensures var s := states[|labels|];
      1 in s.threads && s.threads[1].call == Get(k) && s.threads[1].pc == Got(None)
  {
    states, labels := EvictBeneath(k, first, second);
    states, labels := ExtendWhile(states, labels, ReadRow(1), 1, k, true);
    states, labels := ExtendWhile(states, labels, Fill(1), 1, k, true);
  }

  // ---- closing twice ------------------------------------------------------------------------------

  /** A Close finds the store closed and returns nil with k still queued: while the Close that
      closed it has yet to flush, or after its flush has failed. */
  lemma ClosedTwice(k: Key, c: Content, failed: bool) returns (states: seq<State>, labels: seq<Label>)
    ensures Run(states, labels) && ClosedNil(states[|labels|], 1)
    ensures var s := states[|labels|];
      && 0 in s.threads && s.threads[0].call == Close
      && s.threads[0].pc == (if failed then Returned(false) else Waiting)
      && k in s.store.pending && !Drained(s.store)
  {
    states, labels := Start();
    states, labels := Extend(states, labels, PutEntry(k, c));
    states, labels := Extend(states, labels, Begin(0, Close));
    assert k in states[|labels|].store.pending;
    if failed {
      states, labels := Extend(states, labels, Grab(0));
      states, labels := Extend(states, labels, Restore(0));
    }
    states, labels := Extend(states, labels, Begin(1, Close));
    assert k in states[|labels|].store.pending;
  }
}
