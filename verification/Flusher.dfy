/** The write-behind protocol of the catalog as a step machine: any number of calls run
    concurrently, and one step is what a call does under one hold of `mu`, or one
    transaction on the single writer connection. `flushMu` is `holder`.

    Every write of a key is an event in `log`; a row carries the index of the event that
    wrote it, so "a later operation on the same key" is a larger index. The log is a
    history variable: no step looks at it. */
module Flusher {
  import opened Types

  datatype Event =
    | Queued(key: Key, content: Content)             // PutEntry
    | Unqueued(key: Key)                             // DeleteEntry, under mu
    | Deleted(key: Key)                              // DeleteEntry, its DELETE
    | Committed(key: Key, content: Content)          // CommitEntry, its transaction
    | Evicted(key: Key)                              // EvictEntry, its transaction
    | ProjectDropped(project: string)                // DeleteProject, its transaction
    | Replaced(project: string, rows: map<Key, Content>) // ApplySnapshot, its transaction
  {
    predicate Affects(k: Key) {
      match this
      case ProjectDropped(p) => k.project == p
      case Replaced(p, _) => k.project == p
      case _ => this.key == k
    }

    /** The event gives `k` this content. */
    predicate Writes(k: Key, c: Content) {
      match this
      case Queued(key, content) => key == k && content == c
      case Committed(key, content) => key == k && content == c
      case Replaced(_, rows) => k in rows && rows[k] == c
      case _ => false
    }

    predicate WritesKey(k: Key) {
      match this
      case Queued(key, _) => key == k
      case Committed(key, _) => key == k
      case Replaced(_, rows) => k in rows
      case _ => false
    }
  }

  datatype Row = Row(stamp: nat, content: Content)

  type Rows = map<Key, Row>

  type Tid = nat

  datatype Call =
    | Flush
    | Close
    | Delete(key: Key)
    | Evict(key: Key)
    | Commit(key: Key, content: Content)
    | DropProject(project: string)
    | Apply(project: string, rows: map<Key, Content>)
    | Get(key: Key)
  {
    /** Calls that start with Flush (Close ends with one). */
    predicate Flushes() {
      !Delete? && !Get?
    }
  }

  datatype Pc =
    | Waiting                       // for flushMu; for Get: about to look under mu
    | Writing                       // holds flushMu, its batch detached
    | Dropping                      // DeleteEntry holding flushMu, row still in the table
    | Flushed                       // its Flush returned nil, its transaction is next
    | Landed(stamp: nat)            // transaction committed, cache step is next
    | Missed                        // Get: neither pending nor cached
    | Read(row: Option<Row>)        // Get: the table has answered
    | Got(row: Option<Row>)         // Get has returned this
    | Skipped                       // Close of a closed store: returned nil at once
    | Returned(ok: bool)

  datatype Thread = Thread(call: Call, began: nat, pc: Pc)

  /** The three places an entry row can be, and the history of writes. */
  datatype Store = Store(log: seq<Event>, pending: Rows, batch: Rows, table: Rows)

  datatype State = State(
    store: Store,
    holder: Option<Tid>,
    cache: Rows,
    threads: map<Tid, Thread>,
    closed: bool,
    poolsOpen: bool)

  datatype Label =
    | PutEntry(key: Key, content: Content)
    | Begin(tid: Tid, call: Call)
    | Grab(tid: Tid)                 // take flushMu, then detach or drop under mu
    | Land(tid: Tid)                 // the batch's transaction commits
    | Restore(tid: Tid)              // it fails, the rows go back
    | DeleteRow(tid: Tid, ok: bool)
    | Tx(tid: Tid, ok: bool)
    | CacheStep(tid: Tid)
    | Look(tid: Tid)
    | ReadRow(tid: Tid)
    | Fill(tid: Tid)
    | Lapse(key: Key)                // the LRU evicts a key

  const EMPTY := State(Store([], map[], map[], map[]), None, map[], map[], false, true)

  predicate At(s: State, t: Tid, pc: Pc) {
    t in s.threads && s.threads[t].pc == pc
  }

  /** ApplySnapshot refuses an entry of another project. */
  predicate Scoped(call: Call) {
    call.Apply? ==> forall k :: k in call.rows ==> k.project == call.project
  }

  predicate Enabled(s: State, l: Label) {
    match l
    case PutEntry(_, _) => !s.closed
    case Begin(t, call) => t !in s.threads && Scoped(call)
    case Grab(t) => At(s, t, Waiting) && !s.threads[t].call.Get? && s.holder.None?
    case Land(t) => At(s, t, Writing) && s.poolsOpen
    case Restore(t) => At(s, t, Writing)
    case DeleteRow(t, ok) => At(s, t, Dropping) && s.threads[t].call.Delete? && (ok ==> s.poolsOpen)
    case Tx(t, ok) => At(s, t, Flushed) && (ok ==> s.poolsOpen)
    case CacheStep(t) => t in s.threads && s.threads[t].pc.Landed?
    case Look(t) => At(s, t, Waiting) && s.threads[t].call.Get?
    case ReadRow(t) => At(s, t, Missed) && s.threads[t].call.Get? && s.poolsOpen
    case Fill(t) => t in s.threads && s.threads[t].pc.Read? && s.threads[t].call.Get?
    case Lapse(_) => true
  }

  // ---- what a step does to the rows -------------------------------------------------

  function Queue(st: Store, k: Key, c: Content): Store {
    st.(log := st.log + [Queued(k, c)], pending := st.pending[k := Row(|st.log|, c)])
  }

  function Unqueue(st: Store, k: Key): Store {
    st.(log := st.log + [Unqueued(k)], pending := st.pending - {k})
  }

  function Detach(st: Store): Store {
    st.(batch := st.pending, pending := map[])
  }

  function LandBatch(st: Store): Store {
    st.(table := st.table + st.batch, batch := map[])
  }

  /** A failed batch goes back, except where a newer write is queued already. */
  function RestoreBatch(st: Store): Store {
    st.(pending := st.batch + st.pending, batch := map[])
  }

  function DeleteFromTable(st: Store, k: Key): Store {
    st.(log := st.log + [Deleted(k)], table := st.table - {k})
  }

  function InProject(rows: Rows, project: string): set<Key> {
    set k | k in rows && k.project == project
  }

  function Stamped(stamp: nat, rows: map<Key, Content>): Rows {
    map k | k in rows :: Row(stamp, rows[k])
  }

  /** The transaction of a call whose flush has returned, or None when it fails. */
  function Transact(st: Store, call: Call): Option<Store> {
    match call
    case Evict(k) =>
      if k in st.table then Some(st.(log := st.log + [Evicted(k)], table := st.table - {k})) else None
    case Commit(k, c) =>
      Some(st.(log := st.log + [Committed(k, c)], table := st.table[k := Row(|st.log|, c)]))
    case DropProject(p) =>
      Some(st.(log := st.log + [ProjectDropped(p)], table := st.table - InProject(st.table, p)))
    case Apply(p, rows) =>
      Some(st.(log := st.log + [Replaced(p, rows)],
               table := (st.table - InProject(st.table, p)) + Stamped(|st.log|, rows)))
    case _ => None
  }

  /** CommitEntry caches the entry it was given, whatever the table holds by then. */
  function CacheAfter(cache: Rows, stamp: nat, call: Call): Rows {
    match call
    case Evict(k) => cache - {k}
    case Commit(k, c) => cache[k := Row(stamp, c)]
    case DropProject(p) => cache - InProject(cache, p)
    case Apply(p, _) => cache - InProject(cache, p)
    case _ => cache
  }

  // ---- the steps --------------------------------------------------------------------

  function Lookup(rows: Rows, k: Key): Option<Row> {
    if k in rows then Some(rows[k]) else None
  }

  /** GetEntry under mu: the queue first, then the cache. */
  function AfterLook(s: State, k: Key): Pc {
    if k in s.store.pending then Got(Some(s.store.pending[k]))
    else if k in s.cache then Got(Some(s.cache[k]))
    else Missed
  }

  function Goto(s: State, t: Tid, pc: Pc): State
    requires t in s.threads
  {
    s.(threads := s.threads[t := s.threads[t].(pc := pc)])
  }

  /** What a call does once its flush is over: Flush and Close return, the rest go on. */
  function AfterFlush(s: State, t: Tid): State
    requires t in s.threads
  {
    var call := s.threads[t].call;
    Goto(s, t, AfterPc(call)).(poolsOpen := s.poolsOpen && !call.Close?)
  }

  function AfterPc(call: Call): Pc {
    if call.Flush? || call.Close? then Returned(true) else Flushed
  }

  function Next(s: State, l: Label): State
    requires Enabled(s, l)
  {
    match l
    case PutEntry(k, c) =>
      s.(store := Queue(s.store, k, c), cache := s.cache[k := Row(|s.store.log|, c)])
    case Begin(t, call) =>
      s.(threads := s.threads[t := Thread(call, |s.store.log|, if call.Close? && s.closed then Skipped else Waiting)],
         closed := s.closed || call.Close?)
    case Grab(t) =>
      var call := s.threads[t].call;
      if call.Delete? then
        Goto(s, t, Dropping).(
          store := Unqueue(s.store, call.key), cache := s.cache - {call.key}, holder := Some(t))
      else if s.store.pending == map[] then AfterFlush(s, t)
      else Goto(s, t, Writing).(store := Detach(s.store), holder := Some(t))
    case Land(t) => AfterFlush(s, t).(store := LandBatch(s.store), holder := None)
    case Restore(t) =>
      Goto(s, t, Returned(false)).(
        store := RestoreBatch(s.store), holder := None,
        poolsOpen := s.poolsOpen && !s.threads[t].call.Close?)
    case DeleteRow(t, ok) =>
      var k := s.threads[t].call.key;
      Goto(s, t, Returned(ok)).(
        store := if ok then DeleteFromTable(s.store, k) else s.store, holder := None)
    case Tx(t, ok) =>
      var after := Transact(s.store, s.threads[t].call);
      if ok && after.Some? then Goto(s, t, Landed(|s.store.log|)).(store := after.value)
      else Goto(s, t, Returned(false))
    case CacheStep(t) =>
      var th := s.threads[t];
      Goto(s, t, Returned(true)).(cache := CacheAfter(s.cache, th.pc.stamp, th.call))
    case Look(t) =>
      var k := s.threads[t].call.key;
      Goto(s, t, AfterLook(s, k))
    case ReadRow(t) =>
      var k := s.threads[t].call.key;
      Goto(s, t, Read(Lookup(s.store.table, k)))
    case Fill(t) =>
      var row := s.threads[t].pc.row;
      Goto(s, t, Got(row)).(cache := if row.Some? then s.cache[s.threads[t].call.key := row.value] else s.cache)
    case Lapse(k) => s.(cache := s.cache - {k})
  }

  // ---- what every step keeps --------------------------------------------------------

  predicate Holds(rows: Rows, k: Key, n: nat) {
    k in rows && rows[k].stamp == n
  }

  predicate KeySince(rows: Rows, k: Key, n: nat) {
    k in rows ==> rows[k].stamp >= n
  }

  ghost predicate RowsSince(rows: Rows, n: nat) {
    forall k :: k in rows ==> rows[k].stamp >= n
  }

  ghost predicate RowsLogged(log: seq<Event>, rows: Rows) {
    forall k :: k in rows ==> rows[k].stamp < |log| && log[rows[k].stamp].Writes(k, rows[k].content)
  }

  /** Rows that came from PutEntry. */
  ghost predicate RowsQueued(log: seq<Event>, rows: Rows) {
    forall k :: k in rows ==> rows[k].stamp < |log| && log[rows[k].stamp] == Queued(k, rows[k].content)
  }

  /** Where both hold a queued write of a key, `newer` holds the later one. */
  ghost predicate Newer(log: seq<Event>, newer: Rows, older: Rows) {
    forall k :: k in newer && k in older && older[k].stamp < |log| && log[older[k].stamp].Queued? ==>
      older[k].stamp < newer[k].stamp
  }

  ghost predicate Layered(st: Store) {
    && RowsQueued(st.log, st.pending)
    && RowsQueued(st.log, st.batch)
    && RowsLogged(st.log, st.table)
    && Newer(st.log, st.pending, st.batch)
    && Newer(st.log, st.pending, st.table)
    && Newer(st.log, st.batch, st.table)
  }

  ghost predicate Superseded(log: seq<Event>, n: nat, k: Key) {
    exists m :: n < m < |log| && log[m].Affects(k)
  }

  /** The write logged at n is still held somewhere, or something later happened to its
      key. */
  ghost predicate Kept(st: Store, n: nat, k: Key) {
    || Holds(st.pending, k, n)
    || Holds(st.batch, k, n)
    || Holds(st.table, k, n)
    || Superseded(st.log, n, k)
  }

  ghost predicate NothingLost(st: Store) {
    forall n :: 0 <= n < |st.log| && st.log[n].Queued? ==> Kept(st, n, st.log[n].key)
  }

  /** flushMu covers a batch from detach to commit, and a delete from drop to DELETE. */
  ghost predicate LockOwned(s: State) {
    && (s.holder.None? ==> s.store.batch == map[])
    && (s.holder.Some? ==> At(s, s.holder.value, Writing) || At(s, s.holder.value, Dropping))
    && (forall t: Tid :: At(s, t, Writing) || At(s, t, Dropping) ==> s.holder == Some(t))
  }

  /** How far a call has got decides which layers can still hold rows written before it
      began. */
  ghost predicate ThreadOk(st: Store, th: Thread) {
    && th.began <= |st.log|
    && Scoped(th.call)
    && match th.pc
       case Waiting => true
       case Writing => th.call.Flushes() && RowsSince(st.pending, th.began)
       case Dropping =>
         th.call.Delete? && st.batch == map[] && KeySince(st.pending, th.call.key, th.began)
       case Flushed => Transacts(th.call) && QueueSince(st, th.began)
       case Landed(_) =>
         && Transacts(th.call) && QueueSince(st, th.began)
         && (th.call.Evict? ==> KeySince(st.table, th.call.key, th.began))
       case Missed => th.call.Get?
       case Read(_) => th.call.Get?
       case Got(_) => th.call.Get?
       case Skipped => th.call.Close?
       case Returned(ok) =>
         && (th.call.Delete? ==>
               && KeySince(st.pending, th.call.key, th.began)
               && KeySince(st.batch, th.call.key, th.began))
         && (ok && th.call.Flushes() ==> QueueSince(st, th.began))
         && (ok && (th.call.Delete? || th.call.Evict?) ==> KeySince(st.table, th.call.key, th.began))
  }

  predicate Transacts(call: Call) {
    call.Evict? || call.Commit? || call.DropProject? || call.Apply?
  }

  ghost predicate QueueSince(st: Store, n: nat) {
    RowsSince(st.pending, n) && RowsSince(st.batch, n)
  }

  ghost predicate NoneQueuedSince(log: seq<Event>, n: nat) {
    forall m :: n <= m < |log| ==> !log[m].Queued?
  }

  ghost predicate Threads(s: State) {
    forall t :: t in s.threads ==>
      && ThreadOk(s.store, s.threads[t])
      && (s.threads[t].call.Close? ==> s.closed && NoneQueuedSince(s.store.log, s.threads[t].began))
  }

  ghost predicate Inv(s: State) {
    Layered(s.store) && NothingLost(s.store) && LockOwned(s) && Threads(s)
  }

  /** Every row of `rows` was in `a` or `b`, or is newer than the log. */
  ghost predicate FromOrNew(rows: Rows, a: Rows, b: Rows, now: nat) {
    forall k :: k in rows ==>
      || (k in a && rows[k] == a[k])
      || (k in b && rows[k] == b[k])
      || rows[k].stamp >= now
  }

  /** What any step does to the rows, as the other calls see it. */
  ghost predicate Evolves(st: Store, st': Store) {
    && |st.log| <= |st'.log| && st'.log[..|st.log|] == st.log
    && FromOrNew(st'.pending, st.pending, st.batch, |st.log|)
    && FromOrNew(st'.batch, st.pending, st.batch, |st.log|)
    && FromOrNew(st'.table, st.table, st.batch, |st.log|)
  }

  // ---- the rows ---------------------------------------------------------------------

  lemma SupersededGrows(log: seq<Event>, e: Event, n: nat, k: Key)
    requires Superseded(log, n, k) || (n < |log| && e.Affects(k))
    ensures Superseded(log + [e], n, k)
  {
    if Superseded(log, n, k) {
      var m :| n < m < |log| && log[m].Affects(k);
      assert (log + [e])[m].Affects(k);
    } else {
      assert (log + [e])[|log|].Affects(k);
    }
  }

  lemma QueueKeeps(st: Store, k: Key, c: Content)
    requires Layered(st) && NothingLost(st)
    ensures Layered(Queue(st, k, c)) && NothingLost(Queue(st, k, c)) && Evolves(st, Queue(st, k, c))
  {
    KeptByEvent(st, Queue(st, k, c), Queued(k, c));
    QueueLayers(st, k, c);
  }

  lemma QueueLayers(st: Store, k: Key, c: Content)
    requires Layered(st)
    ensures Layered(Queue(st, k, c)) && Evolves(st, Queue(st, k, c))
  {
  }

  lemma UnqueueKeeps(st: Store, k: Key)
    requires Layered(st) && NothingLost(st)
    ensures Layered(Unqueue(st, k)) && NothingLost(Unqueue(st, k)) && Evolves(st, Unqueue(st, k))
  {
    KeptByEvent(st, Unqueue(st, k), Unqueued(k));
  }

  lemma DeleteKeeps(st: Store, k: Key)
    requires Layered(st) && NothingLost(st)
    ensures Layered(DeleteFromTable(st, k)) && NothingLost(DeleteFromTable(st, k))
      && Evolves(st, DeleteFromTable(st, k))
  {
    var st' := DeleteFromTable(st, k);
    assert st'.log[|st.log|] == Deleted(k);
    TableEventKeeps(st, st');
  }

  /** The transaction logs one event and touches the table only at keys it affects. */
  ghost predicate OneEvent(st: Store, st': Store) {
    && |st'.log| == |st.log| + 1 && st'.log == st.log + [st'.log[|st.log|]]
    && !st'.log[|st.log|].Queued?
    && st'.pending == st.pending && st'.batch == st.batch
    && RowsLogged(st'.log, st'.table)
    && FromOrNew(st'.table, st.table, map[], |st.log|)
    && forall k :: k in st.table && !st'.log[|st.log|].Affects(k) ==> k in st'.table && st'.table[k] == st.table[k]
  }

  lemma ApplyShape(st: Store, p: string, rows: map<Key, Content>)
    requires RowsLogged(st.log, st.table) && Scoped(Apply(p, rows))
    ensures OneEvent(st, Transact(st, Apply(p, rows)).value)
  {
    var st' := Transact(st, Apply(p, rows)).value;
    assert st'.log[|st.log|] == Replaced(p, rows);
  }

  lemma TransactShape(st: Store, call: Call)
    requires RowsLogged(st.log, st.table) && Transact(st, call).Some?
    requires Scoped(call)
    ensures OneEvent(st, Transact(st, call).value)
  {
    if call.Apply? {
      ApplyShape(st, call.project, call.rows);
    } else {
      PlainShape(st, call);
    }
  }

  lemma PlainShape(st: Store, call: Call)
    requires RowsLogged(st.log, st.table) && Transact(st, call).Some? && !call.Apply?
    ensures OneEvent(st, Transact(st, call).value)
  {
  }

  lemma TransactKeeps(st: Store, call: Call)
    requires Layered(st) && NothingLost(st) && Transact(st, call).Some?
    requires Scoped(call)
    ensures Layered(Transact(st, call).value) && NothingLost(Transact(st, call).value)
    ensures Evolves(st, Transact(st, call).value)
  {
    TransactShape(st, call);
    TableEventKeeps(st, Transact(st, call).value);
  }

  lemma TableEventKeeps(st: Store, st': Store)
    requires Layered(st) && NothingLost(st) && OneEvent(st, st')
    ensures Layered(st') && NothingLost(st') && Evolves(st, st')
  {
    KeptByEvent(st, st', st'.log[|st.log|]);
    TableEventLayers(st, st');
  }

  lemma TableEventLayers(st: Store, st': Store)
    requires Layered(st) && OneEvent(st, st')
    ensures Layered(st') && Evolves(st, st')
  {
  }

  /** A step that logs e and moves rows of the keys e affects only. */
  lemma KeptByEvent(st: Store, st': Store, e: Event)
    requires NothingLost(st)
    requires st'.log == st.log + [e]
    requires e.Queued? ==> Holds(st'.pending, e.key, |st.log|)
    requires forall k, n: nat {:trigger Holds(st.pending, k, n)} :: !e.Affects(k) ==>
      && (Holds(st.pending, k, n) ==> Holds(st'.pending, k, n))
      && (Holds(st.batch, k, n) ==> Holds(st'.batch, k, n))
      && (Holds(st.table, k, n) ==> Holds(st'.table, k, n))
    ensures NothingLost(st')
  {
    forall n | 0 <= n < |st'.log| && st'.log[n].Queued? ensures Kept(st', n, st'.log[n].key) {
      if n < |st.log| {
        var k := st.log[n].key;
        assert Kept(st, n, k);
        if Superseded(st.log, n, k) || e.Affects(k) {
          SupersededGrows(st.log, e, n, k);
        } else {
          assert Holds(st.pending, k, n) || !Holds(st.pending, k, n);
        }
      }
    }
  }

  lemma DetachKeeps(st: Store)
    requires Layered(st) && NothingLost(st) && st.batch == map[]
    ensures Layered(Detach(st)) && NothingLost(Detach(st)) && Evolves(st, Detach(st))
  {
    forall n | 0 <= n < |st.log| && st.log[n].Queued? ensures Kept(Detach(st), n, st.log[n].key) {
      assert Kept(st, n, st.log[n].key);
    }
  }

  /** A row the batch overwrites was queued before the batch's own row, or was not queued
      at all; either way nothing unsuperseded disappears. */
  lemma LandKeeps(st: Store)
    requires Layered(st) && NothingLost(st)
    ensures Layered(LandBatch(st)) && NothingLost(LandBatch(st)) && Evolves(st, LandBatch(st))
  {
    forall n | 0 <= n < |st.log| && st.log[n].Queued? ensures Kept(LandBatch(st), n, st.log[n].key) {
      var k := st.log[n].key;
      assert Kept(st, n, k);
      if Holds(st.table, k, n) && k in st.batch {
        assert n < st.batch[k].stamp && st.log[st.batch[k].stamp].Affects(k);
      }
    }
  }

  lemma RestoreKeeps(st: Store)
    requires Layered(st) && NothingLost(st)
    ensures Layered(RestoreBatch(st)) && NothingLost(RestoreBatch(st)) && Evolves(st, RestoreBatch(st))
  {
    forall n | 0 <= n < |st.log| && st.log[n].Queued? ensures Kept(RestoreBatch(st), n, st.log[n].key) {
      var k := st.log[n].key;
      assert Kept(st, n, k);
      if Holds(st.batch, k, n) && k in st.pending {
        assert n < st.pending[k].stamp && st.log[st.pending[k].stamp].Affects(k);
      }
    }
  }

  // ---- the calls --------------------------------------------------------------------

  lemma OtherThreadKept(st: Store, st': Store, th: Thread)
    requires ThreadOk(st, th) && Evolves(st, st')
    requires th.pc == Writing || th.pc == Dropping ==>
               st'.batch == st.batch && FromOrNew(st'.pending, st.pending, map[], |st.log|)
    ensures ThreadOk(st', th)
  {
  }

  /** A step of call t that keeps the rows in order keeps the whole invariant, provided it
      moves queued rows only under flushMu. */
  lemma ActorStep(s: State, s': State, t: Tid)
    requires Inv(s) && t in s.threads && t in s'.threads
    requires s'.threads == s.threads[t := s.threads[t].(pc := s'.threads[t].pc)]
    requires Layered(s'.store) && NothingLost(s'.store) && Evolves(s.store, s'.store)
    requires forall n :: |s.store.log| <= n < |s'.store.log| ==> !s'.store.log[n].Queued?
    requires ThreadOk(s'.store, s'.threads[t])
    requires s'.closed == s.closed
    requires var pc := s'.threads[t].pc; s'.holder == Some(t) <==> pc == Writing || pc == Dropping
    requires
      || ((s.holder.None? || s.holder == Some(t)) &&
          (s'.holder == Some(t) || (s'.holder.None? && s'.store.batch == map[])))
      || (s'.holder == s.holder && s'.store.pending == s.store.pending && s'.store.batch == s.store.batch)
    ensures Inv(s')
  {
    assert forall u: Tid :: u != t ==>
      (At(s', u, Writing) == At(s, u, Writing)) && (At(s', u, Dropping) == At(s, u, Dropping));
    forall u | u in s'.threads && u != t
      ensures ThreadOk(s'.store, s'.threads[u])
    {
      assert At(s, u, Writing) || At(s, u, Dropping) ==> s.holder == Some(u);
      OtherThreadKept(s.store, s'.store, s.threads[u]);
    }
  }

  lemma PutKeeps(s: State, k: Key, c: Content)
    requires Inv(s) && Enabled(s, PutEntry(k, c))
    ensures Inv(Next(s, PutEntry(k, c)))
  {
    var s' := Next(s, PutEntry(k, c));
    QueueKeeps(s.store, k, c);
    forall u | u in s'.threads ensures ThreadOk(s'.store, s'.threads[u]) {
      OtherThreadKept(s.store, s'.store, s.threads[u]);
    }
    assert forall u: Tid :: (At(s', u, Writing) == At(s, u, Writing)) && (At(s', u, Dropping) == At(s, u, Dropping));
  }

  lemma GrabToDelete(s: State, t: Tid)
    requires Inv(s) && Enabled(s, Grab(t)) && s.threads[t].call.Delete?
    ensures Inv(Next(s, Grab(t)))
  {
    UnqueueKeeps(s.store, s.threads[t].call.key);
    ActorStep(s, Next(s, Grab(t)), t);
  }

  lemma GrabToWrite(s: State, t: Tid)
    requires Inv(s) && Enabled(s, Grab(t)) && !s.threads[t].call.Delete? && s.store.pending != map[]
    ensures Inv(Next(s, Grab(t)))
  {
    DetachKeeps(s.store);
    ActorStep(s, Next(s, Grab(t)), t);
  }

  lemma AfterFlushOk(st: Store, th: Thread)
    requires th.call.Flushes() && Scoped(th.call)
    requires th.began <= |st.log| && QueueSince(st, th.began)
    ensures ThreadOk(st, th.(pc := AfterPc(th.call)))
  {
  }

  /** The batch is on disk, so nothing queued is older than the call. */
  lemma FlushedStep(s: State, s': State, t: Tid)
    requires Inv(s) && t in s.threads && s.threads[t].call.Flushes()
    requires Layered(s'.store) && NothingLost(s'.store) && Evolves(s.store, s'.store)
    requires s'.store.log == s.store.log && QueueSince(s'.store, s.threads[t].began)
    requires s.holder.None? || s.holder == Some(t)
    requires s'.store.batch == map[] && s'.holder.None?
    requires s'.threads == s.threads[t := s.threads[t].(pc := AfterPc(s.threads[t].call))] && s'.closed == s.closed
    ensures Inv(s')
  {
    assert ThreadOk(s.store, s.threads[t]);
    AfterFlushOk(s'.store, s.threads[t]);
    ActorStep(s, s', t);
  }

  lemma GrabNothing(s: State, t: Tid)
    requires Inv(s) && Enabled(s, Grab(t)) && !s.threads[t].call.Delete? && s.store.pending == map[]
    ensures Inv(Next(s, Grab(t)))
  {
    FlushedStep(s, Next(s, Grab(t)), t);
  }

  lemma LandStep(s: State, t: Tid)
    requires Inv(s) && Enabled(s, Land(t))
    ensures Inv(Next(s, Land(t)))
  {
    LandKeeps(s.store);
    assert ThreadOk(s.store, s.threads[t]);
    FlushedStep(s, Next(s, Land(t)), t);
  }

  lemma RestoreStep(s: State, t: Tid)
    requires Inv(s) && Enabled(s, Restore(t))
    ensures Inv(Next(s, Restore(t)))
  {
    RestoreKeeps(s.store);
    assert s.holder == Some(t);
    ActorStep(s, Next(s, Restore(t)), t);
  }

  lemma DeleteRowKeeps(s: State, t: Tid, ok: bool)
    requires Inv(s) && Enabled(s, DeleteRow(t, ok))
    ensures Inv(Next(s, DeleteRow(t, ok)))
  {
    DeleteKeeps(s.store, s.threads[t].call.key);
    assert s.holder == Some(t);
    ActorStep(s, Next(s, DeleteRow(t, ok)), t);
  }

  lemma TxKeeps(s: State, t: Tid, ok: bool)
    requires Inv(s) && Enabled(s, Tx(t, ok))
    ensures Inv(Next(s, Tx(t, ok)))
  {
    var call := s.threads[t].call;
    if ok && Transact(s.store, call).Some? {
      TransactShape(s.store, call);
      TransactKeeps(s.store, call);
    }
    ActorStep(s, Next(s, Tx(t, ok)), t);
  }

  lemma BeginKeeps(s: State, t: Tid, call: Call)
    requires Inv(s) && Enabled(s, Begin(t, call))
    ensures Inv(Next(s, Begin(t, call)))
  {
    var s' := Next(s, Begin(t, call));
    assert forall u: Tid :: (At(s', u, Writing) == At(s, u, Writing)) && (At(s', u, Dropping) == At(s, u, Dropping));
  }

  /** A step that moves no row. */
  lemma QuietStep(s: State, s': State, t: Tid)
    requires Inv(s) && t in s.threads && t in s'.threads
    requires s'.store == s.store && s'.holder == s.holder && s'.closed == s.closed
    requires s'.threads == s.threads[t := s.threads[t].(pc := s'.threads[t].pc)]
    requires var pc := s.threads[t].pc; pc != Writing && pc != Dropping
    requires var pc := s'.threads[t].pc; pc != Writing && pc != Dropping
    requires ThreadOk(s.store, s'.threads[t])
    ensures Inv(s')
  {
    ActorStep(s, s', t);
  }

  lemma CacheStepKeeps(s: State, t: Tid)
    requires Inv(s) && Enabled(s, CacheStep(t))
    ensures Inv(Next(s, CacheStep(t)))
  {
    assert ThreadOk(s.store, s.threads[t]);
    QuietStep(s, Next(s, CacheStep(t)), t);
  }

  lemma GetStep(s: State, t: Tid, pc: Pc, cache: Rows)
    requires Inv(s) && t in s.threads && s.threads[t].call.Get?
    requires s.threads[t].pc != Writing && s.threads[t].pc != Dropping
    requires pc.Missed? || pc.Read? || pc.Got?
    ensures Inv(Goto(s, t, pc).(cache := cache))
  {
    assert ThreadOk(s.store, s.threads[t]);
    QuietStep(s, Goto(s, t, pc).(cache := cache), t);
  }

  lemma LookKeeps(s: State, t: Tid)
    requires Inv(s) && Enabled(s, Look(t))
    ensures Inv(Next(s, Look(t)))
  {
    var k := s.threads[t].call.key;
    GetStep(s, t, AfterLook(s, k), s.cache);
  }

  lemma ReadRowKeeps(s: State, t: Tid)
    requires Inv(s) && Enabled(s, ReadRow(t))
    ensures Inv(Next(s, ReadRow(t)))
  {
    var k := s.threads[t].call.key;
    GetStep(s, t, Read(Lookup(s.store.table, k)), s.cache);
  }

  lemma FillKeeps(s: State, t: Tid)
    requires Inv(s) && Enabled(s, Fill(t))
    ensures Inv(Next(s, Fill(t)))
  {
    var row := s.threads[t].pc.row;
    GetStep(s, t, Got(row), if row.Some? then s.cache[s.threads[t].call.key := row.value] else s.cache);
  }

  lemma StepKeeps(s: State, l: Label)
    requires Inv(s) && Enabled(s, l)
    ensures Inv(Next(s, l))
  {
    match l
    case PutEntry(k, c) => PutKeeps(s, k, c);
    case Begin(t, call) => BeginKeeps(s, t, call);
    case Grab(t) =>
      if s.threads[t].call.Delete? {
        GrabToDelete(s, t);
      } else if s.store.pending != map[] {
        GrabToWrite(s, t);
      } else {
        GrabNothing(s, t);
      }
    case Land(t) => LandStep(s, t);
    case Restore(t) => RestoreStep(s, t);
    case DeleteRow(t, ok) => DeleteRowKeeps(s, t, ok);
    case Tx(t, ok) => TxKeeps(s, t, ok);
    case Lapse(k) => LapseKeeps(s, k);
    case CacheStep(t) => CacheStepKeeps(s, t);
    case Look(t) => LookKeeps(s, t);
    case ReadRow(t) => ReadRowKeeps(s, t);
    case Fill(t) => FillKeeps(s, t);
  }

  lemma LapseKeeps(s: State, k: Key)
    requires Inv(s)
    ensures Inv(Next(s, Lapse(k)))
  {
  }

  // ---- whole runs -------------------------------------------------------------------

  /** A process starts with whatever table the last one left. */
  ghost predicate Initial(s: State) {
    && s.store.pending == map[] && s.store.batch == map[] && s.cache == map[]
    && s.holder.None? && s.threads == map[] && !s.closed && s.poolsOpen
    && RowsLogged(s.store.log, s.store.table)
    && NoneQueuedSince(s.store.log, 0)
  }

  /** `states` are what the steps `labels` lead through. */
  ghost predicate Run(states: seq<State>, labels: seq<Label>) {
    && |states| == |labels| + 1
    && Initial(states[0])
    && forall i {:trigger labels[i]} :: 0 <= i < |labels| ==>
         Enabled(states[i], labels[i]) && states[i + 1] == Next(states[i], labels[i])
  }

  lemma {:induction false} RunKeeps(states: seq<State>, labels: seq<Label>, i: nat)
    requires Run(states, labels) && i < |states|
    ensures Inv(states[i])
  {
    if i > 0 {
      RunKeeps(states, labels, i - 1);
      assert Enabled(states[i - 1], labels[i - 1]);
      StepKeeps(states[i - 1], labels[i - 1]);
    }
  }

  /** The write logged at n is in the table, or something later happened to its key. */
  ghost predicate Settled(st: Store, n: nat)
    requires n < |st.log| && st.log[n].Queued?
  {
    var e := st.log[n];
    || (e.key in st.table && st.table[e.key] == Row(n, e.content))
    || Superseded(st.log, n, e.key)
  }

  /** Flush is a barrier. In every interleaving, once a Flush (or any call that flushes
      first) has returned nil, a write whose PutEntry returned before that call began is in
      the table, or something later happened to its key - even when another flush had
      already taken the batch it was in. */
  lemma FlushBarrier(states: seq<State>, labels: seq<Label>, i: nat, t: Tid, n: nat)
    requires Run(states, labels) && i < |states|
    requires t in states[i].threads && states[i].threads[t].call.Flushes()
    requires At(states[i], t, Returned(true))
    requires n < states[i].threads[t].began && n < |states[i].store.log|
    requires states[i].store.log[n].Queued?
    ensures Settled(states[i].store, n)
  {
    RunKeeps(states, labels, i);
    assert Kept(states[i].store, n, states[i].store.log[n].key);
  }

  /** A delete is not undone. Once DeleteEntry or EvictEntry has returned without error, no
      flush, retry or restore brings the key back to any layer, unless some put, commit or
      snapshot wrote the key after the call began. */
  lemma DeleteIsFinal(states: seq<State>, labels: seq<Label>, i: nat, t: Tid)
    requires Run(states, labels) && i < |states|
    requires t in states[i].threads && At(states[i], t, Returned(true))
    requires states[i].threads[t].call.Delete? || states[i].threads[t].call.Evict?
    requires forall m :: states[i].threads[t].began <= m < |states[i].store.log| ==>
      !states[i].store.log[m].WritesKey(states[i].threads[t].call.key)
    ensures var st, k := states[i].store, states[i].threads[t].call.key;
      k !in st.pending && k !in st.batch && k !in st.table
  {
    RunKeeps(states, labels, i);
    var st, k := states[i].store, states[i].threads[t].call.key;
    assert ThreadOk(st, states[i].threads[t]);
    QueuedAreLogged(st);
    NotWritten(st.log, st.pending, k, states[i].threads[t].began);
    NotWritten(st.log, st.batch, k, states[i].threads[t].began);
    NotWritten(st.log, st.table, k, states[i].threads[t].began);
  }

  lemma QueuedAreLogged(st: Store)
    requires Layered(st)
    ensures RowsLogged(st.log, st.pending) && RowsLogged(st.log, st.batch)
  {
  }

  lemma RowWrites(log: seq<Event>, rows: Rows, k: Key)
    requires RowsLogged(log, rows) && k in rows
    ensures rows[k].stamp < |log| && log[rows[k].stamp].WritesKey(k)
  {
  }

  /** A key that nothing has written since n has no row since n. */
  lemma NotWritten(log: seq<Event>, rows: Rows, k: Key, n: nat)
    requires RowsLogged(log, rows) && KeySince(rows, k, n)
    requires forall m :: n <= m < |log| ==> !log[m].WritesKey(k)
    ensures k !in rows
  {
    if k in rows {
      RowWrites(log, rows, k);
    }
  }

  lemma QueuedRow(log: seq<Event>, rows: Rows, k: Key)
    requires RowsQueued(log, rows) && k in rows
    ensures rows[k].stamp < |log| && log[rows[k].stamp].Queued?
  {
  }

  /** No queued row can be newer than the last write that was queued. */
  lemma NoneLeft(log: seq<Event>, rows: Rows, n: nat)
    requires RowsQueued(log, rows) && RowsSince(rows, n) && NoneQueuedSince(log, n)
    ensures rows == map[]
  {
    forall k ensures k !in rows {
      if k in rows {
        QueuedRow(log, rows, k);
      }
    }
  }

  /** Nothing is queued or in flight, and every queued write reached the table or was overtaken
      by a later operation. */
  ghost predicate Drained(st: Store) {
    && st.pending == map[] && st.batch == map[]
    && forall n :: 0 <= n < |st.log| && st.log[n].Queued? ==> Settled(st, n)
  }

  /** The Close that closes the store leaves it drained if it returns nil. */
  lemma CloseDrains(states: seq<State>, labels: seq<Label>, i: nat, t: Tid)
    requires Run(states, labels) && i < |states|
    requires t in states[i].threads && states[i].threads[t].call.Close?
    requires At(states[i], t, Returned(true))
    ensures Drained(states[i].store)
  {
    RunKeeps(states, labels, i);
    var st := states[i].store;
    assert ThreadOk(st, states[i].threads[t]);
    NoneLeft(st.log, st.pending, states[i].threads[t].began);
    NoneLeft(st.log, st.batch, states[i].threads[t].began);
    forall n | 0 <= n < |st.log| && st.log[n].Queued?
      ensures Settled(st, n)
    {
      assert Kept(st, n, st.log[n].key);
    }
  }

  /** A Close that has returned nil, having drained the store or having found it closed. */
  predicate ClosedNil(s: State, t: Tid) {
    t in s.threads && s.threads[t].call.Close? && (s.threads[t].pc == Returned(true) || s.threads[t].pc == Skipped)
  }

  /** A Close that finds the store closed returns nil whatever became of the queue. What its nil
      does say: some Close closed the store before, and if that one has returned nil the store
      is drained. */
  lemma LaterCloseDrains(states: seq<State>, labels: seq<Label>, i: nat, t: Tid) returns (closer: Tid)
    requires Run(states, labels) && i < |states| && ClosedNil(states[i], t)
    ensures closer in states[i].threads && states[i].threads[closer].call.Close?
    ensures states[i].threads[closer].pc != Skipped
    ensures states[i].threads[closer].pc == Returned(true) ==> Drained(states[i].store)
  {
    closer := CloserOf(states, labels, i);
    if states[i].threads[closer].pc == Returned(true) {
      CloseDrains(states, labels, i, closer);
    }
  }

  /** The call that closed a closed store. */
  lemma {:induction false} CloserOf(states: seq<State>, labels: seq<Label>, i: nat) returns (closer: Tid)
    requires Run(states, labels) && i < |states|
    requires states[i].closed || exists t: Tid :: ClosedNil(states[i], t)
    ensures closer in states[i].threads && states[i].threads[closer].call.Close?
    ensures states[i].threads[closer].pc != Skipped
  {
    RunKeeps(states, labels, i);
    assert states[i].closed;
    assert i > 0;
    var s, l := states[i - 1], labels[i - 1];
    assert Enabled(s, l) && states[i] == Next(s, l);
    if s.closed {
      closer := CloserOf(states, labels, i - 1);
      CloserStays(s, l, closer);
    } else {
      closer := l.tid;
    }
  }

  lemma CloserStays(s: State, l: Label, t: Tid)
    requires Enabled(s, l) && t in s.threads && s.threads[t].call.Close? && s.threads[t].pc != Skipped
    ensures var s' := Next(s, l); t in s'.threads && s'.threads[t].call.Close? && s'.threads[t].pc != Skipped
  {
    match l
    case Grab(u) => assert u != t ==> Next(s, l).threads[t] == s.threads[t];
    case Land(u) => assert u != t ==> Next(s, l).threads[t] == s.threads[t];
    case Look(u) => assert u != t ==> Next(s, l).threads[t] == s.threads[t];
    case _ =>
  }

  // ---- the map the layers stand for ---------------------------------------------------

  function Abstract(st: Store): Rows {
    st.table + st.batch + st.pending
  }

  lemma AbstractKept(st: Store)
    ensures st.batch == map[] ==> Abstract(Detach(st)) == Abstract(st)
    ensures Abstract(LandBatch(st)) == Abstract(st)
    ensures Abstract(RestoreBatch(st)) == Abstract(st)
  {
  }

  /** Detaching a batch, landing it and putting it back are invisible. */
  lemma FlushInvisible(s: State, l: Label)
    requires Inv(s) && Enabled(s, l)
    requires l.Land? || l.Restore? || (l.Grab? && !s.threads[l.tid].call.Delete?)
    ensures Abstract(Next(s, l).store) == Abstract(s.store)
    ensures Next(s, l).store.log == s.store.log
  {
    AbstractKept(s.store);
  }

  /** A failed batch loses no row: each is queued again, or a newer write of its key is. */
  lemma RestoreLosesNothing(s: State, t: Tid, k: Key)
    requires Inv(s) && Enabled(s, Restore(t))
    ensures var st, st' := s.store, Next(s, Restore(t)).store;
      && (k in st.pending ==> k in st'.pending && st'.pending[k] == st.pending[k])
      && (k in st.batch && k !in st.pending ==> k in st'.pending && st'.pending[k] == st.batch[k])
      && (k in st.batch && k in st.pending ==> st.batch[k].stamp < st'.pending[k].stamp)
      && (k in st'.pending ==> k in st.pending || k in st.batch)
      && st'.table == st.table
  {
    assert k in s.store.batch ==> s.store.log[s.store.batch[k].stamp].Queued?;
  }
}
