/** Publication against collection: writers publish blobs, calls link entries to them, and a
    collector deletes what nothing names, all interleaved with the catalog's own steps. The
    catalog is the Flusher machine; `readers` and `gc` are the two sides of the store's
    lifecycle lock. */
module BlobGc {
  import opened Types
  import F = Flusher

  type Tid = nat

  /** How evictions and links behave. `ageChecked`: the DeleteIf callback of an eviction refuses a
      blob younger than the grace period, as the garbage collector's does. `leased`: some entry
      is linked outside WithBlob, within the grace period of a blob its caller has just
      committed. */
  datatype Config = Config(grace: Time, ageChecked: bool, leased: bool)

  /** A caller's own Commit of a blob, and the blob's mtime after it. */
  datatype Lease = Lease(digest: Digest, since: Time)

  /** Who calls DeleteIf: the garbage collector on an old blob, or an eviction or removal on the
      blob that the EvictEntry of call `evict` has just left unreferenced. */
  datatype Why = Aged(cutoff: Time) | Unreferenced(evict: Tid)

  datatype Stage = Asking | Cleared

  /** A DeleteIf callback in progress, under the write lock; `tid` is its Flush. */
  datatype Collector = Collector(tid: Tid, digest: Digest, stage: Stage)

  datatype State = State(
    cat: F.State,
    blobs: map<Digest, Time>,          // mtimes
    pins: set<Digest>,                 // what live snapshot manifests name
    now: Time,
    readers: map<Tid, Digest>,         // WithBlob calls in progress
    leases: map<Tid, Lease>,
    evicted: map<Tid, Digest>,         // what EvictEntry calls have left unreferenced
    gc: Option<Collector>)

  datatype Label =
    | Tick(elapsed: nat)
    | Publish(tid: Tid, digest: Digest, written: Time)  // Writer.Commit
    | Enter(tid: Tid, digest: Digest)                   // WithBlob finds the blob
    | Leave(tid: Tid)
    | Put(tid: Tid, key: Key, content: Content)         // PutEntry
    | Cat(step: F.Label)
    | Collect(tid: Tid, digest: Digest, why: Why)       // DeleteIf up to its Flush
    | Query
    | Remove
    | Spare                                             // the callback says no, or fails

  /** The row may be linked: its caller is inside WithBlob on the blob, or committed the blob
      itself less than a grace period ago. */
  predicate MayLink(c: Config, s: State, t: Tid, d: Digest) {
    || (t in s.readers && s.readers[t] == d)
    || (c.leased && t in s.leases && s.leases[t].digest == d && s.now < s.leases[t].since + c.grace)
  }

  /** CommitEntry runs inside WithBlob; a snapshot names only what its manifest pins. */
  predicate Linked(s: State, step: F.Label) {
    step.Tx? && step.ok && step.tid in s.cat.threads ==>
      var call := s.cat.threads[step.tid].call;
      && (call.Commit? ==> step.tid in s.readers && s.readers[step.tid] == call.content.digest)
      && (call.Apply? ==> forall k :: k in call.rows ==> call.rows[k].digest in s.pins)
  }

  predicate MayCollect(c: Config, s: State, d: Digest, why: Why)
    requires d in s.blobs
  {
    match why
    case Aged(cutoff) => cutoff <= s.now - c.grace && s.blobs[d] <= cutoff
    case Unreferenced(e) =>
      && e in s.evicted && s.evicted[e] == d && F.At(s.cat, e, F.Returned(true))
      && (c.ageChecked ==> s.blobs[d] <= s.now - c.grace)
  }

  predicate InTable(table: F.Rows, d: Digest) {
    exists k :: k in table && table[k].content.digest == d
  }

  ghost predicate Enabled(c: Config, s: State, l: Label) {
    match l
    case Tick(_) => true
    case Publish(t, d, written) => s.readers == map[] && s.gc.None? && written <= s.now
    case Enter(t, d) => t !in s.readers && s.gc.None? && d in s.blobs
    case Leave(t) => t in s.readers
    case Put(t, k, content) => F.Enabled(s.cat, F.PutEntry(k, content)) && MayLink(c, s, t, content.digest)
    case Cat(step) => !step.PutEntry? && F.Enabled(s.cat, step) && Linked(s, step)
    case Collect(t, d, why) =>
      && s.readers == map[] && s.gc.None? && d in s.blobs && d !in s.pins
      && MayCollect(c, s, d, why)
      && F.Enabled(s.cat, F.Begin(t, F.Flush))
    case Query =>
      && s.gc.Some? && s.gc.value.stage.Asking?
      && F.At(s.cat, s.gc.value.tid, F.Returned(true))
      && !InTable(s.cat.store.table, s.gc.value.digest)
    case Remove => s.gc.Some? && s.gc.value.stage.Cleared?
    case Spare => s.gc.Some?
  }

  /** EvictEntry's transaction reports whether any entry still names what its own row named. */
  function Evicted(s: State, step: F.Label): map<Tid, Digest>
    requires F.Enabled(s.cat, step)
  {
    if step.Tx? && step.ok && s.cat.threads[step.tid].call.Evict? then
      var k, table := s.cat.threads[step.tid].call.key, s.cat.store.table;
      if k in table && !InTable(table - {k}, table[k].content.digest)
      then s.evicted[step.tid := table[k].content.digest]
      else s.evicted
    else s.evicted
  }

  ghost function Next(c: Config, s: State, l: Label): State
    requires Enabled(c, s, l)
  {
    match l
    case Tick(elapsed) => s.(now := s.now + elapsed)
    case Publish(t, d, written) =>
      // an existing blob's times are refreshed; a new one keeps its last write's
      var mtime := if d in s.blobs then s.now else written;
      s.(blobs := s.blobs[d := mtime], leases := s.leases[t := Lease(d, mtime)])
    case Enter(t, d) => s.(readers := s.readers[t := d])
    case Leave(t) => s.(readers := s.readers - {t})
    case Put(t, k, content) => s.(cat := F.Next(s.cat, F.PutEntry(k, content)))
    case Cat(step) => s.(cat := F.Next(s.cat, step), evicted := Evicted(s, step))
    case Collect(t, d, why) =>
      s.(cat := F.Next(s.cat, F.Begin(t, F.Flush)),
         evicted := if why.Unreferenced? then s.evicted - {why.evict} else s.evicted,
         gc := Some(Collector(t, d, Asking)))
    case Query => s.(gc := Some(s.gc.value.(stage := Cleared)))
    case Remove => s.(blobs := s.blobs - {s.gc.value.digest}, gc := None)
    case Spare => s.(gc := None)
  }

  // ---- the property -----------------------------------------------------------------------------

  ghost predicate Present(rows: F.Rows, blobs: map<Digest, Time>) {
    forall k :: k in rows ==> rows[k].content.digest in blobs
  }

  /** Every entry that is queued, in flight or stored names a blob that is there. */
  ghost predicate NoDangling(s: State) {
    Present(s.cat.store.pending, s.blobs) && Present(s.cat.store.batch, s.blobs) && Present(s.cat.store.table, s.blobs)
  }

  // ---- what the catalog's steps add ---------------------------------------------------------------

  lemma GrabEvolves(s: F.State, t: Tid)
    requires F.Inv(s) && F.Enabled(s, F.Grab(t))
    ensures F.Evolves(s.store, F.Next(s, F.Grab(t)).store)
  {
    if s.threads[t].call.Delete? {
      F.UnqueueKeeps(s.store, s.threads[t].call.key);
    } else if s.store.pending != map[] {
      F.DetachKeeps(s.store);
    }
  }

  lemma TxEvolves(s: F.State, t: Tid, ok: bool)
    requires F.Inv(s) && F.Enabled(s, F.Tx(t, ok))
    ensures F.Evolves(s.store, F.Next(s, F.Tx(t, ok)).store)
  {
    if ok && F.Transact(s.store, s.threads[t].call).Some? {
      F.TransactKeeps(s.store, s.threads[t].call);
    }
  }

  lemma StoreEvolves(s: F.State, l: F.Label)
    requires F.Inv(s) && F.Enabled(s, l)
    ensures F.Evolves(s.store, F.Next(s, l).store)
  {
    match l
    case PutEntry(k, content) => F.QueueKeeps(s.store, k, content);
    case Grab(t) => GrabEvolves(s, t);
    case Land(t) => F.LandKeeps(s.store);
    case Restore(t) => F.RestoreKeeps(s.store);
    case DeleteRow(t, ok) => F.DeleteKeeps(s.store, s.threads[t].call.key);
    case Tx(t, ok) => TxEvolves(s, t, ok);
    case _ => assert F.Next(s, l).store == s.store;
  }

  lemma StepEvolves(s: F.State, l: F.Label)
    requires F.Inv(s) && F.Enabled(s, l)
    ensures F.Evolves(s.store, F.Next(s, l).store) && F.Inv(F.Next(s, l))
  {
    F.StepKeeps(s, l);
    StoreEvolves(s, l);
  }

  /** The contents a step can write: what it puts, commits or applies. */
  ghost predicate Brings(s: F.State, l: F.Label, content: Content) {
    || (l.PutEntry? && content == l.content)
    || (l.Tx? && l.ok && l.tid in s.threads
        && var call := s.threads[l.tid].call;
           (call.Commit? && content == call.content)
             || (call.Apply? && exists k :: k in call.rows && content == call.rows[k]))
  }

  lemma NewEvents(s: F.State, l: F.Label, n: nat, k: Key, content: Content)
    requires F.Inv(s) && F.Enabled(s, l)
    requires |s.store.log| <= n < |F.Next(s, l).store.log| && F.Next(s, l).store.log[n].Writes(k, content)
    ensures Brings(s, l, content)
  {
    if l.Tx? {
      F.TransactShape(s.store, s.threads[l.tid].call);
    }
  }

  /** Rows are old ones, or carry contents the step brings. */
  lemma NewRows(s: F.State, l: F.Label, rows: F.Rows, a: F.Rows, b: F.Rows, blobs: map<Digest, Time>)
    requires F.Inv(s) && F.Enabled(s, l)
    requires F.FromOrNew(rows, a, b, |s.store.log|) && F.RowsLogged(F.Next(s, l).store.log, rows)
    requires Present(a, blobs) && Present(b, blobs)
    requires forall content :: Brings(s, l, content) ==> content.digest in blobs
    ensures Present(rows, blobs)
  {
    forall k | k in rows ensures rows[k].content.digest in blobs {
      if rows[k].stamp >= |s.store.log| {
        NewEvents(s, l, rows[k].stamp, k, rows[k].content);
      }
    }
  }

  ghost predicate StorePresent(st: F.Store, blobs: map<Digest, Time>) {
    Present(st.pending, blobs) && Present(st.batch, blobs) && Present(st.table, blobs)
  }

  lemma QueuedIsLogged(log: seq<F.Event>, rows: F.Rows)
    requires F.RowsQueued(log, rows)
    ensures F.RowsLogged(log, rows)
  {
  }

  lemma CatalogStep(s: F.State, l: F.Label, blobs: map<Digest, Time>)
    requires F.Inv(s) && F.Enabled(s, l) && StorePresent(s.store, blobs)
    requires forall content :: Brings(s, l, content) ==> content.digest in blobs
    ensures F.Inv(F.Next(s, l)) && StorePresent(F.Next(s, l).store, blobs)
  {
    StepEvolves(s, l);
    var st, st' := s.store, F.Next(s, l).store;
    QueuedIsLogged(st'.log, st'.pending);
    QueuedIsLogged(st'.log, st'.batch);
    NewRows(s, l, st'.pending, st.pending, st.batch, blobs);
    NewRows(s, l, st'.batch, st.pending, st.batch, blobs);
    NewRows(s, l, st'.table, st.table, st.batch, blobs);
  }

  // ---- the invariant ------------------------------------------------------------------------------

  /** No event since n gives an entry the digest d. */
  ghost predicate NoneSince(log: seq<F.Event>, n: nat, d: Digest) {
    forall m, k, content :: n <= m < |log| && log[m].Writes(k, content) ==> content.digest != d
  }

  /** While a lease runs, its blob is there and at least as young as it was. */
  ghost predicate LeasesHold(c: Config, s: State) {
    c.leased && c.ageChecked ==>
      forall t :: t in s.leases && s.now < s.leases[t].since + c.grace ==>
        s.leases[t].digest in s.blobs && s.leases[t].since <= s.blobs[s.leases[t].digest]
  }

  ghost predicate CollectorOk(c: Config, s: State, g: Collector) {
    && s.readers == map[]
    && g.digest in s.blobs && g.digest !in s.pins
    && (c.ageChecked ==> s.blobs[g.digest] <= s.now - c.grace)
    && g.tid in s.cat.threads && s.cat.threads[g.tid].call.Flush?
    && NoneSince(s.cat.store.log, s.cat.threads[g.tid].began, g.digest)
    && (g.stage.Cleared? ==>
          && s.cat.threads[g.tid].pc == F.Returned(true)
          && !InTable(s.cat.store.table, g.digest))
  }

  ghost predicate Inv(c: Config, s: State) {
    && F.Inv(s.cat)
    && StorePresent(s.cat.store, s.blobs)
    && (forall d :: d in s.pins ==> d in s.blobs)
    && (forall t :: t in s.readers ==> s.readers[t] in s.blobs)
    && (forall d :: d in s.blobs ==> s.blobs[d] <= s.now)
    && (forall t :: t in s.leases ==> s.leases[t].since <= s.now)
    && LeasesHold(c, s)
    && (s.gc.Some? ==> CollectorOk(c, s, s.gc.value))
  }

  predicate Careful(c: Config) {
    c.ageChecked || !c.leased || c.grace <= 0
  }

  /** What a linking step brings is there, and is not what the collector is after. */
  lemma LinkIsSafe(c: Config, s: State, t: Tid, d: Digest)
    requires Inv(c, s) && Careful(c) && MayLink(c, s, t, d)
    ensures d in s.blobs && (s.gc.Some? ==> d != s.gc.value.digest)
  {
  }

  lemma BroughtIsSafe(c: Config, s: State, step: F.Label, content: Content)
    requires Inv(c, s) && Enabled(c, s, Cat(step)) && Brings(s.cat, step, content)
    ensures content.digest in s.blobs && (s.gc.Some? ==> content.digest != s.gc.value.digest)
  {
  }

  lemma NoneSinceStep(s: F.State, l: F.Label, n: nat, d: Digest)
    requires F.Inv(s) && F.Enabled(s, l) && n <= |s.store.log| && NoneSince(s.store.log, n, d)
    requires forall content :: Brings(s, l, content) ==> content.digest != d
    ensures NoneSince(F.Next(s, l).store.log, n, d)
  {
    StepEvolves(s, l);
    var log, log' := s.store.log, F.Next(s, l).store.log;
    forall m, k, content | n <= m < |log'| && log'[m].Writes(k, content) ensures content.digest != d {
      if m < |log| {
        assert log'[m] == log[m];
      } else {
        NewEvents(s, l, m, k, content);
      }
    }
  }

  /** A call that has returned stays returned, and no call changes what it is. */
  lemma ThreadsStay(s: F.State, l: F.Label, t: Tid)
    requires F.Enabled(s, l) && t in s.threads
    ensures var th, th' := s.threads[t], F.Next(s, l).threads;
      && t in th' && th'[t].call == th.call && th'[t].began == th.began
      && (th.pc.Returned? ==> th'[t].pc == th.pc)
  {
    match l
    case Grab(u) => assert u != t ==> F.Next(s, l).threads[t] == s.threads[t];
    case Land(u) => assert u != t ==> F.Next(s, l).threads[t] == s.threads[t];
    case _ =>
  }

  /** Rows of a digest that no event has written since the flush began, and that the table
      does not have, are nowhere. */
  lemma ClearedIsClear(c: Config, s: State, g: Collector)
    requires F.Inv(s.cat) && g.tid in s.cat.threads && s.cat.threads[g.tid].call.Flush?
    requires s.cat.threads[g.tid].pc == F.Returned(true)
    requires NoneSince(s.cat.store.log, s.cat.threads[g.tid].began, g.digest)
    ensures forall k :: k in s.cat.store.pending ==> s.cat.store.pending[k].content.digest != g.digest
    ensures forall k :: k in s.cat.store.batch ==> s.cat.store.batch[k].content.digest != g.digest
  {
    var st := s.cat.store;
    assert F.ThreadOk(st, s.cat.threads[g.tid]);
    forall k | k in st.pending ensures st.pending[k].content.digest != g.digest {
      assert st.log[st.pending[k].stamp].Writes(k, st.pending[k].content);
    }
    forall k | k in st.batch ensures st.batch[k].content.digest != g.digest {
      assert st.log[st.batch[k].stamp].Writes(k, st.batch[k].content);
    }
  }

  /** A row lands in the table from the batch or from a new event. */
  lemma LandsClear(st: F.Store, st': F.Store, n: nat, d: Digest, k: Key)
    requires F.FromOrNew(st'.table, st.table, st.batch, |st.log|) && F.RowsLogged(st'.log, st'.table)
    requires F.RowsLogged(st.log, st.batch) && F.RowsSince(st.batch, n) && n <= |st.log|
    requires NoneSince(st.log, n, d) && NoneSince(st'.log, n, d)
    requires !InTable(st.table, d) && k in st'.table
    ensures st'.table[k].content.digest != d
  {
    if k in st.table && st'.table[k] == st.table[k] {
    } else if k in st.batch && st'.table[k] == st.batch[k] {
      assert st.log[st.batch[k].stamp].Writes(k, st.batch[k].content);
    } else {
      assert st'.log[st'.table[k].stamp].Writes(k, st'.table[k].content);
    }
  }

  lemma TableStaysClear(st: F.Store, st': F.Store, n: nat, d: Digest)
    requires F.FromOrNew(st'.table, st.table, st.batch, |st.log|) && F.RowsLogged(st'.log, st'.table)
    requires F.RowsLogged(st.log, st.batch) && F.RowsSince(st.batch, n) && n <= |st.log|
    requires NoneSince(st.log, n, d) && NoneSince(st'.log, n, d)
    requires !InTable(st.table, d)
    ensures !InTable(st'.table, d)
  {
    forall k | k in st'.table ensures st'.table[k].content.digest != d {
      LandsClear(st, st', n, d, k);
    }
  }

  lemma StillNotInTable(s: F.State, l: F.Label, d: Digest, t: Tid)
    requires F.Inv(s) && F.Enabled(s, l) && !InTable(s.store.table, d)
    requires t in s.threads && s.threads[t].call.Flush? && s.threads[t].pc == F.Returned(true)
    requires NoneSince(s.store.log, s.threads[t].began, d)
    requires NoneSince(F.Next(s, l).store.log, s.threads[t].began, d)
    ensures !InTable(F.Next(s, l).store.table, d)
  {
    var s' := F.Next(s, l);
    StepEvolves(s, l);
    QueuedIsLogged(s.store.log, s.store.batch);
    assert F.ThreadOk(s.store, s.threads[t]);
    assert F.QueueSince(s.store, s.threads[t].began);
    TableStaysClear(s.store, s'.store, s.threads[t].began, d);
  }

  /** Any catalog step under the guards; what evictions have reported plays no part. */
  lemma CatKeeps(c: Config, s: State, l: F.Label, evicted: map<Tid, Digest>)
    requires Inv(c, s) && F.Enabled(s.cat, l)
    requires forall content :: Brings(s.cat, l, content) ==>
      content.digest in s.blobs && (s.gc.Some? ==> content.digest != s.gc.value.digest)
    ensures Inv(c, s.(cat := F.Next(s.cat, l), evicted := evicted))
  {
    CatalogStep(s.cat, l, s.blobs);
    if s.gc.Some? {
      var g := s.gc.value;
      assert F.ThreadOk(s.cat.store, s.cat.threads[g.tid]);
      ThreadsStay(s.cat, l, g.tid);
      NoneSinceStep(s.cat, l, s.cat.threads[g.tid].began, g.digest);
      if g.stage.Cleared? {
        StillNotInTable(s.cat, l, g.digest, g.tid);
      }
    }
  }

  lemma CollectKeeps(c: Config, s: State, t: Tid, d: Digest, why: Why)
    requires Inv(c, s) && Enabled(c, s, Collect(t, d, why))
    ensures Inv(c, Next(c, s, Collect(t, d, why)))
  {
    CatKeeps(c, s, F.Begin(t, F.Flush), Next(c, s, Collect(t, d, why)).evicted);
  }

  lemma PublishKeeps(c: Config, s: State, t: Tid, d: Digest, written: Time)
    requires Inv(c, s) && Enabled(c, s, Publish(t, d, written))
    ensures Inv(c, Next(c, s, Publish(t, d, written)))
  {
    var s' := Next(c, s, Publish(t, d, written));
    assert forall k :: k in s.blobs ==> k in s'.blobs;
  }

  lemma QueryKeeps(c: Config, s: State)
    requires Inv(c, s) && Enabled(c, s, Query)
    ensures Inv(c, Next(c, s, Query))
  {
  }

  /** What is removed is named nowhere, is pinned nowhere, and is under nobody's lease. */
  lemma RemoveKeeps(c: Config, s: State)
    requires Inv(c, s) && Careful(c) && Enabled(c, s, Remove)
    ensures Inv(c, Next(c, s, Remove))
  {
    var g := s.gc.value;
    ClearedIsClear(c, s, g);
    var s' := Next(c, s, Remove);
    forall k | k in s.cat.store.table ensures s.cat.store.table[k].content.digest != g.digest {
    }
    assert StorePresent(s'.cat.store, s'.blobs);
  }

  lemma StepKeeps(c: Config, s: State, l: Label)
    requires Inv(c, s) && Careful(c) && Enabled(c, s, l)
    ensures Inv(c, Next(c, s, l))
  {
    match l
    case Publish(t, d, written) => PublishKeeps(c, s, t, d, written);
    case Put(t, k, content) =>
      LinkIsSafe(c, s, t, content.digest);
      CatKeeps(c, s, F.PutEntry(k, content), s.evicted);
    case Cat(step) =>
      forall content | Brings(s.cat, step, content)
        ensures content.digest in s.blobs && (s.gc.Some? ==> content.digest != s.gc.value.digest)
      {
        BroughtIsSafe(c, s, step, content);
      }
      CatKeeps(c, s, step, Evicted(s, step));
    case Collect(t, d, why) => CollectKeeps(c, s, t, d, why);
    case Query => QueryKeeps(c, s);
    case Remove => RemoveKeeps(c, s);
    case _ =>
  }

  // ---- whole runs ---------------------------------------------------------------------------------

  /** A start: nothing in progress, and every stored entry and pin has its blob. */
  ghost predicate Initial(s: State) {
    && F.Initial(s.cat) && Present(s.cat.store.table, s.blobs)
    && (forall d :: d in s.pins ==> d in s.blobs)
    && (forall d :: d in s.blobs ==> s.blobs[d] <= s.now)
    && s.readers == map[] && s.leases == map[] && s.evicted == map[] && s.gc.None?
  }

  ghost predicate Run(c: Config, states: seq<State>, labels: seq<Label>) {
    && |states| == |labels| + 1
    && Initial(states[0])
    && forall i {:trigger labels[i]} :: 0 <= i < |labels| ==>
         Enabled(c, states[i], labels[i]) && states[i + 1] == Next(c, states[i], labels[i])
  }

  lemma {:induction false} RunKeeps(c: Config, states: seq<State>, labels: seq<Label>, n: nat)
    requires Run(c, states, labels) && Careful(c) && n < |states|
    ensures Inv(c, states[n])
  {
    if n > 0 {
      RunKeeps(c, states, labels, n - 1);
      assert Enabled(c, states[n - 1], labels[n - 1]);
      StepKeeps(c, states[n - 1], labels[n - 1]);
    } else {
      InitialNothingLost(states[0]);
    }
  }

  lemma InitialNothingLost(s: State)
    requires Initial(s)
    ensures F.Inv(s.cat)
  {
  }

  ghost predicate NeverDangles(c: Config) {
    forall states, labels :: Run(c, states, labels) ==> NoDangling(states[|labels|])
  }

  // ---- the run that goes wrong ---------------------------------------------------------------------

  lemma Extend(c: Config, states: seq<State>, labels: seq<Label>, l: Label)
    returns (states': seq<State>, labels': seq<Label>)
    requires Run(c, states, labels) && Enabled(c, states[|labels|], l)
    ensures Run(c, states', labels') && labels' == labels + [l] && states'[0] == states[0]
    ensures states'[|labels'|] == Next(c, states[|labels|], l)
  {
    states', labels' := states + [Next(c, states[|labels|], l)], labels + [l];
    forall i {:trigger labels'[i]} | 0 <= i < |labels'|
      ensures Enabled(c, states'[i], labels'[i]) && states'[i + 1] == Next(c, states'[i], labels'[i])
    {
      if i < |labels| {
        assert labels'[i] == labels[i];
      }
    }
  }

  /** One stored entry and its blob. */
  function Stored(k: Key, content: Content): State {
    State(F.EMPTY.(store := F.Store([F.Committed(k, content)], map[], map[], map[k := F.Row(0, content)])),
          map[content.digest := 0], {}, 0, map[], map[], map[], None)
  }

  /** No call of a writer or a collector is in progress, and nothing waits in the catalog. */
  ghost predicate Still(s: State) {
    && s.cat.store.pending == map[] && s.cat.store.batch == map[]
    && s.cat.holder.None? && s.cat.poolsOpen && !s.cat.closed
    && s.pins == {} && s.now == 0 && s.readers == map[] && s.gc.None?
  }

  /** EvictEntry has flushed and its transaction is next. */
  lemma EvictFlushes(c: Config, k: Key, content: Content) returns (states: seq<State>, labels: seq<Label>)
    ensures Run(c, states, labels) && states[0] == Stored(k, content)
    ensures var s := states[|labels|];
      && Still(s) && s.cat.store.table == map[k := F.Row(0, content)] && s.evicted == map[] && s.leases == map[]
      && s.cat.threads == map[1 := F.Thread(F.Evict(k), 1, F.Flushed)] && s.blobs == map[content.digest := 0]
  {
    var s := Stored(k, content);
    states, labels := [s], [];
    assert F.RowsLogged(s.cat.store.log, s.cat.store.table);
    states, labels := Extend(c, states, labels, Cat(F.Begin(1, F.Evict(k))));
    states, labels := Extend(c, states, labels, Cat(F.Grab(1)));
  }

  /** The entry of call 1 is gone, and its content is reported as unreferenced. */
  ghost predicate EntryEvicted(s: State, d: Digest) {
    && Still(s) && s.cat.store.table == map[] && s.evicted == map[1 := d] && s.leases == map[]
    && s.cat.threads.Keys == {1} && s.cat.threads[1].pc == F.Returned(true) && s.blobs == map[d := 0]
  }

  lemma EvictLast(c: Config, k: Key, content: Content) returns (states: seq<State>, labels: seq<Label>)
    ensures Run(c, states, labels) && states[0] == Stored(k, content)
    ensures EntryEvicted(states[|labels|], content.digest)
  {
    states, labels := EvictFlushes(c, k, content);
    var table := states[|labels|].cat.store.table;
    assert table - {k} == map[];
    assert Evicted(states[|labels|], F.Tx(1, true)) == map[1 := content.digest];
    states, labels := Extend(c, states, labels, Cat(F.Tx(1, true)));
    states, labels := Extend(c, states, labels, Cat(F.CacheStep(1)));
  }

  /** A writer commits the same bytes again; then the eviction's DeleteIf begins. */
  lemma CollectBegins(c: Config, k: Key, content: Content) returns (states: seq<State>, labels: seq<Label>)
    requires !c.ageChecked
    ensures Run(c, states, labels) && states[0] == Stored(k, content)
    ensures var s := states[|labels|];
      && Still(s.(gc := None)) && s.gc == Some(Collector(2, content.digest, Asking)) && s.cat.store.table == map[]
      && 2 in s.cat.threads && s.cat.threads[2].call == F.Flush && s.cat.threads[2].pc == F.Waiting
      && s.blobs == map[content.digest := 0] && s.leases == map[0 := Lease(content.digest, 0)]
  {
    var d := content.digest;
    states, labels := EvictLast(c, k, content);
    states, labels := Extend(c, states, labels, Publish(0, d, 0));
    states, labels := Extend(c, states, labels, Collect(2, d, Unreferenced(1)));
  }

  /** It finds nothing naming the blob, and the blob goes. */
  lemma CollectYoung(c: Config, k: Key, content: Content) returns (states: seq<State>, labels: seq<Label>)
    requires !c.ageChecked
    ensures Run(c, states, labels) && states[0] == Stored(k, content)
    ensures var s := states[|labels|];
      Still(s) && s.blobs == map[] && s.leases == map[0 := Lease(content.digest, 0)]
  {
    states, labels := CollectBegins(c, k, content);
    states, labels := Extend(c, states, labels, Cat(F.Grab(2)));
    states, labels := Extend(c, states, labels, Query);
    states, labels := Extend(c, states, labels, Remove);
    assert states[|labels|].blobs == map[];
  }

  /** The last entry of a blob is evicted, the same bytes are committed again, the eviction's
      callback finds nothing naming them and the blob goes, and then its writer links it. */
  lemma YoungBlobCollected(c: Config, k: Key, content: Content) returns (states: seq<State>, labels: seq<Label>)
    requires !Careful(c)
    ensures Run(c, states, labels) && states[0] == Stored(k, content) && !NoDangling(states[|labels|])
    ensures labels != [] && labels[|labels| - 1] == Put(0, k, content)
  {
    states, labels := CollectYoung(c, k, content);
    states, labels := Extend(c, states, labels, Put(0, k, content));
    var dangling := states[|labels|];
    assert k in dangling.cat.store.pending && dangling.cat.store.pending[k].content == content;
    assert !Present(dangling.cat.store.pending, dangling.blobs);
  }

  /** No interleaving ever leaves a queued, in-flight or stored entry naming a missing blob,
      if and only if evictions check the blob's age again in their callback, or every link is
      made inside WithBlob (or there is no grace period, and so no link outside it). */
  lemma NoDanglingIff(c: Config)
    ensures NeverDangles(c) <==> Careful(c)
  {
    if Careful(c) {
      forall states, labels | Run(c, states, labels) ensures NoDangling(states[|labels|]) {
        RunKeeps(c, states, labels, |labels|);
      }
    } else {
      var states, labels := YoungBlobCollected(c, Key("", "", ""), Content("", 0, ""));
    }
  }

  // ---- garbage goes -----------------------------------------------------------------------------

  /** Consecutive steps from any state. */
  ghost predicate Path(c: Config, states: seq<State>, labels: seq<Label>) {
    && |states| == |labels| + 1
    && forall i {:trigger labels[i]} :: 0 <= i < |labels| ==>
         Enabled(c, states[i], labels[i]) && states[i + 1] == Next(c, states[i], labels[i])
  }

  lemma OneMore(c: Config, states: seq<State>, labels: seq<Label>, l: Label)
    returns (states': seq<State>, labels': seq<Label>)
    requires Path(c, states, labels) && Enabled(c, states[|labels|], l)
    ensures Path(c, states', labels') && labels' == labels + [l] && states'[0] == states[0]
    ensures states'[|labels'|] == Next(c, states[|labels|], l)
  {
    states', labels' := states + [Next(c, states[|labels|], l)], labels + [l];
    forall i {:trigger labels'[i]} | 0 <= i < |labels'|
      ensures Enabled(c, states'[i], labels'[i]) && states'[i + 1] == Next(c, states'[i], labels'[i])
    {
      if i < |labels| {
        assert labels'[i] == labels[i];
      }
    }
  }

  /** Nothing holds the store's or the catalog's locks, and nothing names, pins or keeps young the
      blob. */
  ghost predicate Garbage(c: Config, s: State, d: Digest) {
    && s.readers == map[] && s.gc.None? && s.cat.holder.None? && s.cat.poolsOpen
    && d in s.blobs && d !in s.pins && s.blobs[d] <= s.now - c.grace
    && (forall k :: k in s.cat.store.pending ==> s.cat.store.pending[k].content.digest != d)
    && (forall k :: k in s.cat.store.table ==> s.cat.store.table[k].content.digest != d)
  }

  /** The collector's flush, in one transaction or none. */
  lemma CollectorFlushes(c: Config, states: seq<State>, labels: seq<Label>, t: Tid, d: Digest)
    returns (states': seq<State>, labels': seq<Label>)
    requires Path(c, states, labels)
    requires var s := states[|labels|];
      && s.gc == Some(Collector(t, d, Asking)) && s.cat.holder.None? && s.cat.poolsOpen
      && t in s.cat.threads && s.cat.threads[t].call == F.Flush && s.cat.threads[t].pc == F.Waiting
      && (forall k :: k in s.cat.store.pending ==> s.cat.store.pending[k].content.digest != d)
      && (forall k :: k in s.cat.store.table ==> s.cat.store.table[k].content.digest != d)
    ensures Path(c, states', labels') && states'[0] == states[0] && labels <= labels'
    ensures var s, s' := states[|labels|], states'[|labels'|];
      s'.blobs == s.blobs && s'.gc == s.gc && F.At(s'.cat, t, F.Returned(true)) && !InTable(s'.cat.store.table, d)
  {
    var s := states[|labels|];
    states', labels' := OneMore(c, states, labels, Cat(F.Grab(t)));
    if s.cat.store.pending != map[] {
      states', labels' := OneMore(c, states', labels', Cat(F.Land(t)));
    }
  }

  /** A blob that nothing names or pins and that is out of its grace period can be collected: the
      collector's call comes to its removal, and to that of no other blob. */
  lemma GarbageGoes(c: Config, s: State, d: Digest, t: Tid) returns (states: seq<State>, labels: seq<Label>)
    requires Garbage(c, s, d) && t !in s.cat.threads
    ensures Path(c, states, labels) && states[0] == s
    ensures labels != [] && labels[0] == Collect(t, d, Aged(s.now - c.grace))
    ensures states[|labels|].blobs == s.blobs - {d} && states[|labels|].gc.None?
  {
    states, labels := OneMore(c, [s], [], Collect(t, d, Aged(s.now - c.grace)));
    states, labels := CollectorFlushes(c, states, labels, t, d);
    states, labels := OneMore(c, states, labels, Query);
    states, labels := OneMore(c, states, labels, Remove);
  }
}
