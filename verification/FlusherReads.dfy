/** When the reads of a key through queue, cache and table answer from one plain map. Everything
    here is about one key k; what happens to other keys does not matter. */
module FlusherReads {
  import opened Types
  import opened Flusher

  predicate Touches(call: Call, k: Key) {
    match call
    case Delete(key) => key == k
    case Evict(key) => key == k
    case Commit(key, _) => key == k
    case DropProject(p) => k.project == p
    case Apply(p, _) => k.project == p
    case _ => false
  }

  type Calls = map<Tid, Thread>

  /** t's transaction has committed, and t has yet to update the cache at k. */
  predicate Lagging(calls: Calls, t: Tid, k: Key) {
    t in calls && calls[t].pc.Landed? && Touches(calls[t].call, k)
  }

  predicate CommitLagging(calls: Calls, t: Tid, k: Key) {
    Lagging(calls, t, k) && calls[t].call.Commit?
  }

  predicate Deleting(calls: Calls, t: Tid, k: Key) {
    t in calls && calls[t].pc == Dropping && Touches(calls[t].call, k)
  }

  ghost predicate CacheLags(calls: Calls, k: Key) {
    exists t: Tid :: Lagging(calls, t, k)
  }

  ghost predicate CommitLags(calls: Calls, k: Key) {
    exists t: Tid :: CommitLagging(calls, t, k)
  }

  ghost predicate RowGoing(calls: Calls, k: Key) {
    exists t: Tid :: Deleting(calls, t, k)
  }

  /** A write of k is queued or in flight. */
  predicate Waits(st: Store, k: Key) {
    k in st.pending || k in st.batch
  }

  // ---- runs without the races ---------------------------------------------------------------

  /** The two gaps CommitEntry leaves open at k. Before its transaction: no write of k may be
      queued or in flight by then, and no DELETE outstanding. Before its cache step: no other
      write of k. */
  ghost predicate Calm(s: State, l: Label, k: Key)
    requires Enabled(s, l)
  {
    match l
    case PutEntry(key, _) => key == k ==> !CommitLags(s.threads, k)
    case Grab(t) => s.threads[t].call == Delete(k) ==> !CommitLags(s.threads, k)
    case Tx(t, ok) =>
      ok && Touches(s.threads[t].call, k) ==>
        && !CommitLags(s.threads, k)
        && (s.threads[t].call.Commit? ==> !Waits(s.store, k) && !RowGoing(s.threads, k))
    case _ => true
  }

  /** The step writes k or removes it. */
  predicate WritesKey(s: State, l: Label, k: Key)
    requires Enabled(s, l)
  {
    match l
    case PutEntry(key, _) => key == k
    case Grab(t) => s.threads[t].call == Delete(k)
    case DeleteRow(t, ok) => ok && s.threads[t].call == Delete(k)
    case Tx(t, ok) => ok && Touches(s.threads[t].call, k)
    case _ => false
  }

  /** The gap GetEntry leaves open: the row it read at j was the current one, and nothing has
      written k since. */
  ghost predicate Undisturbed(states: seq<State>, labels: seq<Label>, k: Key, j: nat, i: nat)
    requires Run(states, labels) && j < i < |labels|
  {
    && !Waits(states[j].store, k) && !RowGoing(states[j].threads, k)
    && forall m :: j < m < i ==> !WritesKey(states[m], labels[m], k)
  }

  ghost predicate FillsRow(s: State, l: Label, k: Key)
    requires Enabled(s, l)
  {
    l.Fill? && s.threads[l.tid].call.key == k && s.threads[l.tid].pc.row.Some?
  }

  /** In this run no step at k races another. */
  ghost predicate CalmRun(states: seq<State>, labels: seq<Label>, k: Key) {
    && Run(states, labels)
    && (forall i {:trigger labels[i]} :: 0 <= i < |labels| ==> Calm(states[i], labels[i], k))
    && forall j, i {:trigger labels[j], labels[i]} ::
         0 <= j < i < |labels| && FillsRow(states[i], labels[i], k) && labels[j] == ReadRow(labels[i].tid) ==>
         Undisturbed(states, labels, k, j, i)
  }

  // ---- the cache in such runs -----------------------------------------------------------------

  ghost predicate CoherentAt(s: State, k: Key) {
    k in s.cache ==>
      && (CacheLags(s.threads, k) || Lookup(Abstract(s.store), k) == Some(s.cache[k]))
      && (RowGoing(s.threads, k) ==> k in s.store.pending)
  }

  /** A commit whose cache step is outstanding is still what the layers hold. */
  ghost predicate CommitStands(s: State, t: Tid, k: Key) {
    CommitLagging(s.threads, t, k) ==>
      && !Waits(s.store, k)
      && Lookup(s.store.table, k) == Some(Row(s.threads[t].pc.stamp, s.threads[t].call.content))
  }

  ghost predicate CommitAlone(calls: Calls, k: Key) {
    && (CommitLags(calls, k) ==> !RowGoing(calls, k))
    && (forall t: Tid, u: Tid {:trigger CommitLagging(calls, t, k), CommitLagging(calls, u, k)} ::
          CommitLagging(calls, t, k) && CommitLagging(calls, u, k) ==> t == u)
  }

  /** The cached row of k is the current one, unless a cache step is outstanding. */
  ghost predicate Coherent(s: State, k: Key) {
    CoherentAt(s, k) && (forall t: Tid :: CommitStands(s, t, k)) && CommitAlone(s.threads, k)
  }

  /** The calls at work on k are where they were. */
  ghost predicate SameMarks(calls: Calls, calls': Calls, k: Key) {
    && (forall t: Tid :: Lagging(calls', t, k) <==> Lagging(calls, t, k))
    && (forall t: Tid :: Lagging(calls, t, k) ==> calls'[t] == calls[t])
    && (forall t: Tid :: Deleting(calls', t, k) <==> Deleting(calls, t, k))
  }

  /** A step that leaves k where it was. */
  lemma QuietKeeps(s: State, s': State, k: Key)
    requires Coherent(s, k) && SameMarks(s.threads, s'.threads, k)
    requires k in s'.cache ==> k in s.cache && s'.cache[k] == s.cache[k]
    requires Lookup(Abstract(s'.store), k) == Lookup(Abstract(s.store), k)
    requires !Waits(s.store, k) ==> !Waits(s'.store, k) && Lookup(s'.store.table, k) == Lookup(s.store.table, k)
    requires RowGoing(s.threads, k) && k in s.store.pending ==> k in s'.store.pending
    ensures Coherent(s', k)
  {
    assert CoherentAt(s, k);
    assert forall t: Tid :: CommitLagging(s'.threads, t, k) <==> CommitLagging(s.threads, t, k);
    assert CommitLags(s'.threads, k) <==> CommitLags(s.threads, k);
    assert CacheLags(s'.threads, k) <==> CacheLags(s.threads, k);
    assert RowGoing(s'.threads, k) <==> RowGoing(s.threads, k);
    forall t: Tid ensures CommitStands(s', t, k) {
      assert CommitStands(s, t, k);
    }
  }

  /** Moving one call between places where it is not at work on k. */
  lemma MarksSame(calls: Calls, t: Tid, th: Thread, k: Key)
    requires t in calls && Touches(calls[t].call, k) ==> !calls[t].pc.Landed? && calls[t].pc != Dropping
    requires Touches(th.call, k) ==> !th.pc.Landed? && th.pc != Dropping
    ensures SameMarks(calls, calls[t := th], k)
  {
  }

  lemma AbstractAt(st: Store, k: Key)
    ensures Lookup(Abstract(st), k) ==
      if k in st.pending then Some(st.pending[k])
      else if k in st.batch then Some(st.batch[k])
      else Lookup(st.table, k)
  {
  }

  lemma CalmPut(s: State, k: Key, c: Content)
    requires Coherent(s, k) && Enabled(s, PutEntry(k, c)) && Calm(s, PutEntry(k, c), k)
    ensures Coherent(Next(s, PutEntry(k, c)), k)
  {
    var s' := Next(s, PutEntry(k, c));
    AbstractAt(s'.store, k);
    forall t: Tid ensures CommitStands(s', t, k) {
      assert !CommitLagging(s.threads, t, k);
    }
  }

  /** Only a delete of k itself changes which deletes of k are under way. */
  lemma CalmGrabToDelete(s: State, t: Tid, k: Key)
    requires Inv(s) && Coherent(s, k) && Enabled(s, Grab(t)) && Calm(s, Grab(t), k) && s.threads[t].call == Delete(k)
    ensures Coherent(Next(s, Grab(t)), k)
  {
    var s' := Next(s, Grab(t));
    forall u: Tid ensures !CommitLagging(s'.threads, u, k) {
      assert !CommitLagging(s.threads, u, k);
    }
  }

  lemma CalmDeleteRow(s: State, t: Tid, ok: bool, k: Key)
    requires Inv(s) && Coherent(s, k) && Enabled(s, DeleteRow(t, ok)) && s.threads[t].call == Delete(k)
    ensures Coherent(Next(s, DeleteRow(t, ok)), k)
  {
    var s' := Next(s, DeleteRow(t, ok));
    assert Deleting(s.threads, t, k);
    assert forall u: Tid :: Lagging(s'.threads, u, k) <==> Lagging(s.threads, u, k);
    assert forall u: Tid :: Deleting(s'.threads, u, k) ==> Deleting(s.threads, u, k);
    assert CacheLags(s.threads, k) ==> CacheLags(s'.threads, k);
    AbstractAt(s.store, k);
    AbstractAt(s'.store, k);
    forall u: Tid ensures !CommitLagging(s'.threads, u, k) {
      assert CommitLagging(s.threads, u, k) ==> CommitLags(s.threads, k);
    }
  }

  lemma TransactTouches(st: Store, call: Call, k: Key)
    requires Transact(st, call).Some? && Scoped(call) && !Touches(call, k)
    ensures Lookup(Transact(st, call).value.table, k) == Lookup(st.table, k)
  {
  }

  /** Any transaction on k but a commit may land under a queued write of k: that write is the
      current row before and after. */
  lemma CalmTx(s: State, t: Tid, k: Key)
    requires Inv(s) && Coherent(s, k) && Enabled(s, Tx(t, true)) && Calm(s, Tx(t, true), k)
    requires Transact(s.store, s.threads[t].call).Some? && Touches(s.threads[t].call, k)
    ensures Coherent(Next(s, Tx(t, true)), k)
  {
    var s' := Next(s, Tx(t, true));
    assert Lagging(s'.threads, t, k);
    assert forall u: Tid :: Deleting(s'.threads, u, k) <==> Deleting(s.threads, u, k);
    assert forall u: Tid :: u != t ==> (Lagging(s'.threads, u, k) <==> Lagging(s.threads, u, k));
    forall u: Tid ensures CommitLagging(s'.threads, u, k) ==> u == t {
      assert !CommitLagging(s.threads, u, k);
    }
    assert RowGoing(s'.threads, k) <==> RowGoing(s.threads, k);
    assert CommitStands(s', t, k);
  }

  lemma CalmCacheStep(s: State, t: Tid, k: Key)
    requires Inv(s) && Coherent(s, k) && Enabled(s, CacheStep(t)) && Touches(s.threads[t].call, k)
    ensures Coherent(Next(s, CacheStep(t)), k)
  {
    var s' := Next(s, CacheStep(t));
    assert Lagging(s.threads, t, k) && CommitStands(s, t, k);
    assert forall u: Tid :: Lagging(s'.threads, u, k) ==> Lagging(s.threads, u, k);
    assert forall u: Tid :: CommitLagging(s'.threads, u, k) ==> CommitLagging(s.threads, u, k);
    assert forall u: Tid :: Deleting(s'.threads, u, k) <==> Deleting(s.threads, u, k);
    AbstractAt(s.store, k);
    assert s.threads[t].call.Commit? ==> CommitLagging(s.threads, t, k) && CommitLags(s.threads, k);
    assert ThreadOk(s.store, s.threads[t]);
    forall u: Tid ensures CommitStands(s', u, k) {
      assert CommitStands(s, u, k);
    }
  }

  /** The row is the current one and no delete is about to take it. */
  ghost predicate FillsCurrent(s: State, k: Key, row: Row) {
    !Waits(s.store, k) && Lookup(s.store.table, k) == Some(row) && !RowGoing(s.threads, k)
  }

  lemma CalmFill(s: State, t: Tid, k: Key)
    requires Coherent(s, k) && Enabled(s, Fill(t)) && FillsRow(s, Fill(t), k)
    requires FillsCurrent(s, k, s.threads[t].pc.row.value)
    ensures Coherent(Next(s, Fill(t)), k)
  {
    var s' := Next(s, Fill(t));
    MarksSame(s.threads, t, s'.threads[t], k);
    AbstractAt(s.store, k);
    assert RowGoing(s'.threads, k) <==> RowGoing(s.threads, k);
    assert forall u: Tid :: CommitLagging(s'.threads, u, k) <==> CommitLagging(s.threads, u, k);
    assert CommitLags(s'.threads, k) ==> CommitLags(s.threads, k);
    forall u: Tid ensures CommitStands(s', u, k) {
      assert CommitStands(s, u, k);
    }
  }

  lemma FlushMarks(s: State, l: Label, k: Key)
    requires Inv(s) && Enabled(s, l)
    requires l.Land? || l.Restore? || (l.Grab? && !s.threads[l.tid].call.Delete?)
    ensures SameMarks(s.threads, Next(s, l).threads, k)
    ensures !RowGoing(s.threads, k)
  {
    assert s.holder.None? || At(s, s.holder.value, Writing);
    forall u: Tid ensures !Deleting(s.threads, u, k) {
      assert Deleting(s.threads, u, k) ==> At(s, u, Dropping);
    }
    MarksSame(s.threads, l.tid, Next(s, l).threads[l.tid], k);
  }

  /** The batch moves; no delete is under way, for that would need flushMu too. */
  lemma CalmFlush(s: State, l: Label, k: Key)
    requires Inv(s) && Enabled(s, l) && Coherent(s, k)
    requires l.Land? || l.Restore? || (l.Grab? && !s.threads[l.tid].call.Delete?)
    ensures Coherent(Next(s, l), k)
  {
    FlushInvisible(s, l);
    FlushMarks(s, l, k);
    QuietKeeps(s, Next(s, l), k);
  }

  /** The step is at work on k, other than by moving a batch. */
  ghost predicate AtWork(s: State, l: Label, k: Key)
    requires Enabled(s, l)
  {
    match l
    case PutEntry(key, _) => key == k
    case Grab(t) => s.threads[t].call == Delete(k)
    case DeleteRow(t, _) => s.threads[t].call == Delete(k)
    case Tx(t, ok) => ok && Transact(s.store, s.threads[t].call).Some? && Touches(s.threads[t].call, k)
    case CacheStep(t) => Touches(s.threads[t].call, k)
    case Fill(_) => FillsRow(s, l, k)
    case _ => false
  }

  predicate MovesBatch(s: State, l: Label)
    requires Enabled(s, l)
  {
    l.Land? || l.Restore? || (l.Grab? && !s.threads[l.tid].call.Delete?)
  }

  lemma QuietTx(s: State, t: Tid, ok: bool, k: Key)
    requires Inv(s) && Enabled(s, Tx(t, ok)) && Coherent(s, k) && !AtWork(s, Tx(t, ok), k)
    ensures Coherent(Next(s, Tx(t, ok)), k)
  {
    var s' := Next(s, Tx(t, ok));
    assert ThreadOk(s.store, s.threads[t]);
    if ok && Transact(s.store, s.threads[t].call).Some? {
      TransactTouches(s.store, s.threads[t].call, k);
    }
    AbstractAt(s.store, k);
    AbstractAt(s'.store, k);
    MarksSame(s.threads, t, s'.threads[t], k);
    QuietKeeps(s, s', k);
  }

  /** A delete of another key. */
  lemma QuietDelete(s: State, l: Label, k: Key)
    requires Inv(s) && Enabled(s, l) && Coherent(s, k) && !AtWork(s, l, k)
    requires l.DeleteRow? || (l.Grab? && s.threads[l.tid].call.Delete?)
    ensures Coherent(Next(s, l), k)
  {
    var s' := Next(s, l);
    AbstractAt(s.store, k);
    AbstractAt(s'.store, k);
    MarksSame(s.threads, l.tid, s'.threads[l.tid], k);
    QuietKeeps(s, s', k);
  }

  lemma QuietGet(s: State, l: Label, k: Key)
    requires Inv(s) && Enabled(s, l) && Coherent(s, k) && !AtWork(s, l, k)
    requires l.Begin? || l.Look? || l.ReadRow? || l.Fill? || l.CacheStep?
    ensures Coherent(Next(s, l), k)
  {
    var s' := Next(s, l);
    MarksSame(s.threads, l.tid, s'.threads[l.tid], k);
    QuietKeeps(s, s', k);
  }

  lemma QuietPut(s: State, key: Key, c: Content, k: Key)
    requires Coherent(s, k) && Enabled(s, PutEntry(key, c)) && key != k
    ensures Coherent(Next(s, PutEntry(key, c)), k)
  {
    var s' := Next(s, PutEntry(key, c));
    AbstractAt(s.store, k);
    AbstractAt(s'.store, k);
    QuietKeeps(s, s', k);
  }

  /** Steps of calls that are at work on other keys. */
  lemma QuietStep(s: State, l: Label, k: Key)
    requires Inv(s) && Enabled(s, l) && Coherent(s, k) && !AtWork(s, l, k) && !MovesBatch(s, l)
    ensures Coherent(Next(s, l), k)
  {
    match l
    case PutEntry(key, c) => QuietPut(s, key, c, k);
    case Tx(t, ok) => QuietTx(s, t, ok, k);
    case Lapse(_) => QuietKeeps(s, Next(s, l), k);
    case Grab(_) => QuietDelete(s, l, k);
    case DeleteRow(_, _) => QuietDelete(s, l, k);
    case _ => QuietGet(s, l, k);
  }

  lemma CalmStep(s: State, l: Label, k: Key)
    requires Inv(s) && Enabled(s, l) && Calm(s, l, k) && Coherent(s, k)
    requires FillsRow(s, l, k) ==> FillsCurrent(s, k, s.threads[l.tid].pc.row.value)
    ensures Coherent(Next(s, l), k)
  {
    if MovesBatch(s, l) {
      CalmFlush(s, l, k);
    } else if !AtWork(s, l, k) {
      QuietStep(s, l, k);
    } else {
      match l
      case PutEntry(_, c) => CalmPut(s, k, c);
      case Grab(t) => CalmGrabToDelete(s, t, k);
      case DeleteRow(t, ok) => CalmDeleteRow(s, t, ok, k);
      case Tx(t, _) => CalmTx(s, t, k);
      case CacheStep(t) => CalmCacheStep(s, t, k);
      case Fill(t) => CalmFill(s, t, k);
    }
  }

  // ---- what a read found, and when --------------------------------------------------------------

  /** A call that is past its table read made that read at some earlier step. */
  lemma {:induction false} ReadAt(states: seq<State>, labels: seq<Label>, i: nat, t: Tid) returns (j: nat)
    requires Run(states, labels) && i < |states|
    requires t in states[i].threads && states[i].threads[t].call.Get? && states[i].threads[t].pc.Read?
    ensures j < i && labels[j] == ReadRow(t)
    ensures states[i].threads[t].pc.row == Lookup(states[j].store.table, states[i].threads[t].call.key)
    ensures t in states[j].threads && states[j].threads[t].call == states[i].threads[t].call
    ensures At(states[j], t, Missed)
  {
    assert i > 0;
    var s, l := states[i - 1], labels[i - 1];
    assert Enabled(s, l) && states[i] == Next(s, l);
    if l == ReadRow(t) {
      j := i - 1;
    } else {
      OthersStay(s, l, t);
      j := ReadAt(states, labels, i - 1, t);
    }
  }

  /** A Get is moved by its own steps only. */
  lemma OthersStay(s: State, l: Label, t: Tid)
    requires Enabled(s, l) && t in Next(s, l).threads && Next(s, l).threads[t].call.Get?
    requires var pc := Next(s, l).threads[t].pc; pc.Missed? || pc.Read? || pc.Got?
    requires l != Look(t) && l != ReadRow(t) && l != Fill(t)
    ensures t in s.threads && s.threads[t] == Next(s, l).threads[t]
  {
    var th := Next(s, l).threads[t];
    match l
    case Begin(u, call) => assert u != t;
    case Grab(u) => assert u != t;
    case Tx(u, _) => assert u != t;
    case _ =>
  }

  lemma NoNewDelete(s: State, l: Label, k: Key)
    requires Enabled(s, l) && !WritesKey(s, l, k) && !RowGoing(s.threads, k)
    ensures !RowGoing(Next(s, l).threads, k)
  {
    forall u: Tid ensures !Deleting(Next(s, l).threads, u, k) {
      assert !Deleting(s.threads, u, k);
    }
  }

  /** k has this row in the table, and nothing is about to change that. */
  ghost predicate Rests(s: State, k: Key, row: Option<Row>) {
    !Waits(s.store, k) && !RowGoing(s.threads, k) && Lookup(s.store.table, k) == row
  }

  lemma UnwrittenStep(s: State, l: Label, k: Key, row: Option<Row>)
    requires Inv(s) && Enabled(s, l) && !WritesKey(s, l, k) && Rests(s, k, row)
    ensures Rests(Next(s, l), k, row)
  {
    NoNewDelete(s, l, k);
    match l
    case Tx(t, ok) =>
      assert ThreadOk(s.store, s.threads[t]);
      if ok && Transact(s.store, s.threads[t].call).Some? {
        TransactTouches(s.store, s.threads[t].call, k);
      }
    case DeleteRow(t, ok) => assert s.threads[t].call == Delete(k) ==> Deleting(s.threads, t, k);
    case _ =>
  }

  lemma {:induction false} UnwrittenSince(
    states: seq<State>, labels: seq<Label>, k: Key, row: Option<Row>, j: nat, n: nat)
    requires Run(states, labels) && j <= n < |states| && Rests(states[j], k, row)
    requires forall m {:trigger labels[m]} :: j <= m < n ==> !WritesKey(states[m], labels[m], k)
    ensures Rests(states[n], k, row)
  {
    if j < n {
      UnwrittenSince(states, labels, k, row, j, n - 1);
      RunKeeps(states, labels, n - 1);
      var s, l := states[n - 1], labels[n - 1];
      assert Enabled(s, l) && states[n] == Next(s, l);
      UnwrittenStep(s, l, k, row);
    }
  }

  lemma FillIsCurrent(states: seq<State>, labels: seq<Label>, k: Key, i: nat)
    requires CalmRun(states, labels, k) && i < |labels| && FillsRow(states[i], labels[i], k)
    ensures FillsCurrent(states[i], k, states[i].threads[labels[i].tid].pc.row.value)
  {
    assert Enabled(states[i], labels[i]);
    var j := ReadAt(states, labels, i, labels[i].tid);
    assert Enabled(states[j], labels[j]) && !WritesKey(states[j], labels[j], k);
    assert Undisturbed(states, labels, k, j, i);
    UnwrittenSince(states, labels, k, states[i].threads[labels[i].tid].pc.row, j, i);
  }

  /** In a run without races at k, what the cache holds of k is current wherever no transaction
      on k still owes its cache step. */
  lemma {:induction false} CalmRunCoherent(states: seq<State>, labels: seq<Label>, i: nat, k: Key)
    requires CalmRun(states, labels, k) && i < |states|
    ensures Inv(states[i]) && Coherent(states[i], k)
  {
    RunKeeps(states, labels, i);
    if i > 0 {
      var n := i - 1;
      CalmRunCoherent(states, labels, n, k);
      assert Enabled(states[n], labels[n]);
      if FillsRow(states[n], labels[n], k) {
        FillIsCurrent(states, labels, k, n);
      }
      CalmStep(states[n], labels[n], k);
    }
  }

  // ---- the plain map -------------------------------------------------------------------------------

  /** What a step does to k in one plain map. The layers are consulted only to order it against
      a write of k that waits: a transaction or DELETE that lands meanwhile comes before that
      write and so changes nothing, and a delete forgets it, so that the table shows through. */
  function PlainNext(s: State, l: Label, k: Key, row: Option<Row>): Option<Row>
    requires Enabled(s, l)
  {
    match l
    case PutEntry(key, c) => if key == k then Some(Row(|s.store.log|, c)) else row
    case Grab(t) =>
      if s.threads[t].call == Delete(k) && Waits(s.store, k) then Lookup(s.store.table, k) else row
    case DeleteRow(t, ok) =>
      if ok && s.threads[t].call == Delete(k) && !Waits(s.store, k) then None else row
    case Tx(t, ok) =>
      if ok && !Waits(s.store, k) then PlainTx(|s.store.log|, s.threads[t].call, k, row) else row
    case _ => row
  }

  function PlainTx(stamp: nat, call: Call, k: Key, row: Option<Row>): Option<Row> {
    match call
    case Evict(key) => if key == k then None else row
    case Commit(key, c) => if key == k then Some(Row(stamp, c)) else row
    case DropProject(p) => if k.project == p then None else row
    case Apply(p, rows) =>
      if k.project != p then row else if k in rows then Some(Row(stamp, rows[k])) else None
    case _ => row
  }

  /** The plain map at k after the first i steps of a run. */
  ghost function Plain(states: seq<State>, labels: seq<Label>, i: nat, k: Key): Option<Row>
    requires Run(states, labels) && i < |states|
  {
    if i == 0 then Lookup(states[0].store.table, k)
    else PlainNext(states[i - 1], labels[i - 1], k, Plain(states, labels, i - 1, k))
  }

  lemma PlainTransact(st: Store, call: Call, k: Key)
    requires Scoped(call) && Transacts(call)
    ensures var after := Transact(st, call);
      Lookup((if after.Some? then after.value else st).table, k) ==
        PlainTx(|st.log|, call, k, Lookup(st.table, k))
  {
  }

  lemma TransactWaits(st: Store, call: Call)
    requires Transact(st, call).Some?
    ensures Transact(st, call).value.pending == st.pending && Transact(st, call).value.batch == st.batch
  {
  }

  lemma PlainTxStep(s: State, t: Tid, ok: bool, k: Key)
    requires Inv(s) && Enabled(s, Tx(t, ok))
    ensures Lookup(Abstract(Next(s, Tx(t, ok)).store), k) ==
      PlainNext(s, Tx(t, ok), k, Lookup(Abstract(s.store), k))
  {
    var call := s.threads[t].call;
    assert ThreadOk(s.store, s.threads[t]);
    PlainTransact(s.store, call, k);
    var after := Transact(s.store, call);
    AbstractAt(s.store, k);
    if ok && after.Some? {
      TransactWaits(s.store, call);
      AbstractAt(after.value, k);
    }
  }

  /** Queue over batch over table moves as the plain map does, races or not. */
  lemma PlainStep(s: State, l: Label, k: Key)
    requires Inv(s) && Enabled(s, l)
    ensures Lookup(Abstract(Next(s, l).store), k) == PlainNext(s, l, k, Lookup(Abstract(s.store), k))
  {
    if l.Tx? {
      PlainTxStep(s, l.tid, l.ok, k);
    } else if MovesBatch(s, l) {
      FlushInvisible(s, l);
    } else {
      AbstractAt(s.store, k);
      AbstractAt(Next(s, l).store, k);
      assert (l.Grab? || l.DeleteRow?) ==>
        ThreadOk(s.store, s.threads[l.tid]) && (s.holder.None? || s.holder == Some(l.tid));
    }
  }

  lemma PlainFollows(states: seq<State>, labels: seq<Label>, n: nat, k: Key)
    requires Run(states, labels) && n < |labels| && Inv(states[n])
    requires Plain(states, labels, n, k) == Lookup(Abstract(states[n].store), k)
    ensures Plain(states, labels, n + 1, k) == Lookup(Abstract(states[n + 1].store), k)
  {
    assert Enabled(states[n], labels[n]) && states[n + 1] == Next(states[n], labels[n]);
    PlainStep(states[n], labels[n], k);
  }

  lemma {:induction false} PlainIsAbstract(states: seq<State>, labels: seq<Label>, i: nat, k: Key)
    requires Run(states, labels) && i < |states|
    ensures Plain(states, labels, i, k) == Lookup(Abstract(states[i].store), k)
  {
    if i == 0 {
      AbstractAt(states[0].store, k);
    } else {
      var n := i - 1;
      PlainIsAbstract(states, labels, n, k);
      RunKeeps(states, labels, n);
      PlainFollows(states, labels, n, k);
    }
  }

  /** What GetEntry answers when it meets no other step. */
  function Answer(s: State, k: Key): Option<Row> {
    if AfterLook(s, k).Got? then AfterLook(s, k).row else Lookup(s.store.table, k)
  }

  /** In flight and not cached. */
  predicate Unseen(s: State, k: Key) {
    k in s.store.batch && k !in s.store.pending && k !in s.cache
  }

  // ---- how a waiting write can be out of the cache -------------------------------------------------

  /** The LRU lets k go, or a call whose transaction took k's row updates the cache. */
  predicate Forgets(s: State, l: Label, k: Key)
    requires Enabled(s, l)
  {
    match l
    case Lapse(key) => key == k
    case CacheStep(t) => !s.threads[t].call.Commit? && Touches(s.threads[t].call, k)
    case _ => false
  }

  /** Step j forgot k, and no PutEntry of k has come since. */
  ghost predicate ForgottenAt(states: seq<State>, labels: seq<Label>, i: nat, k: Key, j: nat)
    requires Run(states, labels) && i < |states|
  {
    && j < i && Forgets(states[j], labels[j], k)
    && forall m {:trigger labels[m]} :: j < m < i ==> !(labels[m].PutEntry? && labels[m].key == k)
  }

  ghost predicate Forgotten(states: seq<State>, labels: seq<Label>, i: nat, k: Key)
    requires Run(states, labels) && i < |states|
  {
    exists j: nat :: ForgottenAt(states, labels, i, k, j)
  }

  /** Only a step that forgets k takes a waiting write of k out of the cache, and PutEntry puts it
      there. */
  lemma WaitingStep(s: State, l: Label, k: Key)
    requires Inv(s) && Enabled(s, l) && Waits(Next(s, l).store, k) && k !in Next(s, l).cache
    ensures !(l.PutEntry? && l.key == k)
    ensures Forgets(s, l, k) || (Waits(s.store, k) && k !in s.cache)
  {
    match l
    case Grab(t) => assert s.threads[t].call.Delete? ==> s.store.batch == map[];
    case CacheStep(t) => assert ThreadOk(s.store, s.threads[t]);
    case _ =>
  }

  /** In every run, races or not: a write of k that is queued or in flight is in the cache, unless
      since the last PutEntry of k the LRU has let k go, or an eviction, a project's deletion or
      a snapshot has dropped it. */
  lemma {:induction false} WaitingIsCached(states: seq<State>, labels: seq<Label>, i: nat, k: Key)
    requires Run(states, labels) && i < |states| && Waits(states[i].store, k)
    ensures k in states[i].cache || Forgotten(states, labels, i, k)
  {
    if i > 0 && k !in states[i].cache {
      var n := i - 1;
      var s, l := states[n], labels[n];
      assert Enabled(s, l) && states[i] == Next(s, l);
      RunKeeps(states, labels, n);
      WaitingStep(s, l, k);
      if Forgets(s, l, k) {
        assert ForgottenAt(states, labels, i, k, n);
      } else {
        WaitingIsCached(states, labels, n, k);
        var j: nat :| ForgottenAt(states, labels, n, k, j);
        assert ForgottenAt(states, labels, i, k, j);
      }
    }
  }

  /** So a row in flight is unseen only after it was forgotten. */
  ghost predicate Lost(states: seq<State>, labels: seq<Label>, i: nat, k: Key)
    requires Run(states, labels) && i < |states|
  {
    Unseen(states[i], k) && Forgotten(states, labels, i, k)
  }

  function ContentOf(row: Option<Row>): Option<Content> {
    if row.Some? then Some(row.value.content) else None
  }

  /** The table holds other content than what is in flight. */
  predicate Differs(s: State, k: Key) {
    k in s.store.batch && ContentOf(Lookup(s.store.table, k)) != Some(s.store.batch[k].content)
  }

  /** In every run without races at k, whatever happens at other keys: the layered read answers
      the plain map's digest, size and media type, or not-found when it has no row, if and only
      if no other content of k is in flight and out of the cache, where only the LRU or a drop
      since it was put can have taken it. A transaction on k must have reached the cache. */
  lemma LayeredReadAgrees(states: seq<State>, labels: seq<Label>, i: nat, k: Key)
    requires CalmRun(states, labels, k) && i < |states|
    requires !CacheLags(states[i].threads, k)
    ensures ContentOf(Answer(states[i], k)) == ContentOf(Plain(states, labels, i, k)) <==>
      !(Lost(states, labels, i, k) && Differs(states[i], k))
    ensures !Lost(states, labels, i, k) ==> Answer(states[i], k) == Plain(states, labels, i, k)
  {
    CalmRunCoherent(states, labels, i, k);
    PlainIsAbstract(states, labels, i, k);
    AbstractAt(states[i].store, k);
    assert CoherentAt(states[i], k);
    if Unseen(states[i], k) {
      WaitingIsCached(states, labels, i, k);
    }
  }

  // ---- a read among other steps --------------------------------------------------------------------

  /** A transaction or DELETE takes or replaces the table's row of k under a waiting write of k. */
  predicate Beneath(s: State, l: Label, k: Key)
    requires Enabled(s, l)
  {
    && Waits(s.store, k)
    && match l
       case DeleteRow(t, ok) => ok && s.threads[t].call == Delete(k)
       case Tx(t, ok) => ok && Touches(s.threads[t].call, k)
       case _ => false
  }

  ghost predicate HeldAt(states: seq<State>, m: nat, k: Key, row: Option<Row>) {
    m < |states| && Lookup(Abstract(states[m].store), k) == row
  }

  ghost predicate HeldWithin(states: seq<State>, first: nat, last: nat, k: Key, row: Option<Row>) {
    exists m :: first <= m <= last && HeldAt(states, m, k, row)
  }

  /** No layer's row of k is from before `first`. */
  ghost predicate LayersHeld(states: seq<State>, first: nat, last: nat, k: Key)
    requires last < |states|
  {
    var st := states[last].store;
    && HeldWithin(states, first, last, k, Lookup(st.table, k))
    && (k in st.pending ==> HeldWithin(states, first, last, k, Some(st.pending[k])))
    && (k in st.batch ==> HeldWithin(states, first, last, k, Some(st.batch[k])))
  }

  /** Every layer's row of k comes from a layer or is the current one. */
  ghost predicate Moved(st: Store, st': Store, k: Key) {
    var now := Lookup(Abstract(st'), k);
    && (|| Lookup(st'.table, k) == Lookup(st.table, k)
        || (k in st.batch && Lookup(st'.table, k) == Some(st.batch[k]))
        || Lookup(st'.table, k) == now)
    && (k in st'.pending ==>
          Some(st'.pending[k]) in {Lookup(st.pending, k), Lookup(st.batch, k), now})
    && (k in st'.batch ==> Some(st'.batch[k]) in {Lookup(st.pending, k), Lookup(st.batch, k)})
  }

  lemma TxMoves(s: State, t: Tid, ok: bool, k: Key)
    requires Inv(s) && Enabled(s, Tx(t, ok)) && !Beneath(s, Tx(t, ok), k)
    ensures Moved(s.store, Next(s, Tx(t, ok)).store, k)
  {
    var call := s.threads[t].call;
    var after := Transact(s.store, call);
    if ok && after.Some? {
      assert ThreadOk(s.store, s.threads[t]);
      TransactWaits(s.store, call);
      AbstractAt(after.value, k);
      if !Touches(call, k) {
        TransactTouches(s.store, call, k);
      }
    }
  }

  lemma BatchMoves(s: State, l: Label, k: Key)
    requires Inv(s) && Enabled(s, l) && (l.Grab? || l.Land? || l.Restore?)
    ensures Moved(s.store, Next(s, l).store, k)
  {
  }

  lemma StepMoves(s: State, l: Label, k: Key)
    requires Inv(s) && Enabled(s, l) && !Beneath(s, l, k)
    ensures Moved(s.store, Next(s, l).store, k)
  {
    match l
    case Tx(t, ok) => TxMoves(s, t, ok, k);
    case Grab(_) => BatchMoves(s, l, k);
    case Land(_) => BatchMoves(s, l, k);
    case Restore(_) => BatchMoves(s, l, k);
    case _ => AbstractAt(Next(s, l).store, k);
  }

  lemma HeldOn(states: seq<State>, first: nat, last: nat, k: Key, row: Option<Row>)
    requires first <= last + 1 < |states|
    requires HeldWithin(states, first, last, k, row) || HeldAt(states, last + 1, k, row)
    ensures HeldWithin(states, first, last + 1, k, row)
  {
  }

  lemma HeldMoves(states: seq<State>, first: nat, last: nat, k: Key)
    requires first <= last && last + 1 < |states|
    requires LayersHeld(states, first, last, k) && Moved(states[last].store, states[last + 1].store, k)
    ensures LayersHeld(states, first, last + 1, k)
  {
    var st, st' := states[last].store, states[last + 1].store;
    assert HeldAt(states, last + 1, k, Lookup(Abstract(st'), k));
    HeldOn(states, first, last, k, Lookup(st'.table, k));
    if k in st'.pending {
      HeldOn(states, first, last, k, Some(st'.pending[k]));
    }
    if k in st'.batch {
      HeldOn(states, first, last, k, Some(st'.batch[k]));
    }
  }

  lemma {:induction false} LayersStayHeld(states: seq<State>, labels: seq<Label>, first: nat, last: nat, k: Key)
    requires Run(states, labels) && first <= last < |states| && !Waits(states[first].store, k)
    requires forall m {:trigger labels[m]} :: first < m < last ==> !Beneath(states[m], labels[m], k)
    ensures LayersHeld(states, first, last, k)
  {
    AbstractAt(states[first].store, k);
    if first == last {
      assert HeldAt(states, first, k, Lookup(states[first].store.table, k));
    } else {
      var n := last - 1;
      LayersStayHeld(states, labels, first, n, k);
      RunKeeps(states, labels, n);
      assert Enabled(states[n], labels[n]) && states[n + 1] == Next(states[n], labels[n]);
      StepMoves(states[n], labels[n], k);
      HeldMoves(states, first, n, k);
    }
  }

  /** The call t of GetEntry has missed the queue and the cache; here is where. */
  lemma {:induction false} MissedAt(states: seq<State>, labels: seq<Label>, i: nat, t: Tid) returns (q: nat)
    requires Run(states, labels) && i < |states|
    requires t in states[i].threads && states[i].threads[t].call.Get? && At(states[i], t, Missed)
    ensures q < i && labels[q] == Look(t) && At(states[q], t, Waiting)
    ensures states[q].threads[t].call == states[i].threads[t].call
    ensures AfterLook(states[q], states[i].threads[t].call.key) == Missed
    ensures forall m :: q < m <= i ==> At(states[m], t, Missed)
  {
    assert i > 0;
    var s, l := states[i - 1], labels[i - 1];
    assert Enabled(s, l) && states[i] == Next(s, l);
    if l == Look(t) {
      q := i - 1;
    } else {
      OthersStay(s, l, t);
      q := MissedAt(states, labels, i - 1, t);
    }
  }

  /** The call t of GetEntry has answered; here is the step at which it did. */
  lemma {:induction false} GotAt(states: seq<State>, labels: seq<Label>, i: nat, t: Tid) returns (f: nat)
    requires Run(states, labels) && i < |states|
    requires t in states[i].threads && states[i].threads[t].call.Get? && states[i].threads[t].pc.Got?
    ensures f < i && t in states[f].threads && states[f].threads[t].call == states[i].threads[t].call
    ensures var pc := states[i].threads[t].pc;
      || (labels[f] == Look(t) && At(states[f], t, Waiting)
          && AfterLook(states[f], states[i].threads[t].call.key) == pc)
      || (labels[f] == Fill(t) && At(states[f], t, Read(pc.row)))
  {
    assert i > 0;
    var s, l := states[i - 1], labels[i - 1];
    assert Enabled(s, l) && states[i] == Next(s, l);
    if l == Look(t) || l == Fill(t) {
      f := i - 1;
    } else {
      OthersStay(s, l, t);
      f := GotAt(states, labels, i - 1, t);
    }
  }

  /** At t's look, no row of k is in flight that the cache has forgotten, and no transaction on k
      owes its cache step; between t's look and its table read, none lands beneath a waiting
      write of k. */
  ghost predicate ClearRead(states: seq<State>, labels: seq<Label>, i: nat, t: Tid, k: Key)
    requires Run(states, labels) && i <= |labels|
  {
    forall m {:trigger labels[m]} :: 0 <= m < i ==>
      && (labels[m] == Look(t) ==> !CacheLags(states[m].threads, k) && !Lost(states, labels, m, k))
      && (At(states[m], t, Missed) ==> !Beneath(states[m], labels[m], k))
  }

  /** A GetEntry of k among any other steps returns what the plain map held of k, row or
      nothing, at some moment of the call. */
  lemma GetAnswersHeld(states: seq<State>, labels: seq<Label>, i: nat, t: Tid, k: Key) returns (m: nat)
    requires CalmRun(states, labels, k) && i < |states| && ClearRead(states, labels, i, t, k)
    requires t in states[i].threads && states[i].threads[t].call == Get(k) && states[i].threads[t].pc.Got?
    ensures m < i && t in states[m].threads && !states[m].threads[t].pc.Got?
    ensures Plain(states, labels, m, k) == states[i].threads[t].pc.row
  {
    var f := GotAt(states, labels, i, t);
    if labels[f] == Look(t) {
      m := f;
      CalmRunCoherent(states, labels, f, k);
      assert CoherentAt(states[f], k);
      AbstractAt(states[f].store, k);
    } else {
      m := TableReadHeld(states, labels, i, f, t, k);
    }
    PlainIsAbstract(states, labels, m, k);
  }

  lemma TableReadHeld(states: seq<State>, labels: seq<Label>, i: nat, f: nat, t: Tid, k: Key) returns (m: nat)
    requires CalmRun(states, labels, k) && f < i < |states| && ClearRead(states, labels, i, t, k)
    requires t in states[f].threads && states[f].threads[t].call == Get(k) && states[f].threads[t].pc.Read?
    ensures m < f && t in states[m].threads && !states[m].threads[t].pc.Got?
    ensures HeldAt(states, m, k, states[f].threads[t].pc.row)
  {
    var j := ReadAt(states, labels, f, t);
    var q := MissedAt(states, labels, j, t);
    assert labels[q] == Look(t);
    assert k !in states[q].store.pending && k !in states[q].cache;
    if k in states[q].store.batch {
      WaitingIsCached(states, labels, q, k);
      assert Lost(states, labels, q, k);
      assert false;
    }
    LayersStayHeld(states, labels, q, j, k);
    m :| q <= m <= j && HeldAt(states, m, k, Lookup(states[j].store.table, k));
    assert m == q || At(states[m], t, Missed);
  }
}
