/** Whole sittings with one catalog: open it, use it, take a checkpoint, use it some more, roll
    back. Calls run one at a time; whether each system call succeeds is part of the call. */
module CatalogRuns {
  import opened Types
  import opened Catalog
  import opened Snapshots
  import opened CatalogDb

  datatype Call =
    | Get(key: Key, readOk: bool)
    | Put(entry: Entry, now: Time)
    | Commit(entry: Entry, artifact: Option<Artifact>, quota: Quota, replaceName: bool, now: Time,
             flushOk: bool, ok: bool)
    | Delete(key: Key, ok: bool)
    | Evict(key: Key, flushOk: bool, ok: bool)
    | DropProject(project: string, flushOk: bool, ok: bool)
    | Touches(touches: seq<Touch>, ok: bool)
    | Apply(project: string, expectedHead: Option<string>, id: string, source: seq<Entry>, sourceFails: bool,
            now: Time, flushOk: bool, ok: bool)
    | Sync(ok: bool)
    | Stop(flushOk: bool)

  method Perform(db: DB, call: Call)
    requires db.Valid()
    modifies db, db.cache, db.cache.Repr
    ensures db.Valid() && fresh(db.cache.Repr - old(db.cache.Repr))
  {
    match call
    case Get(k, readOk) => var r := db.GetEntry(k, readOk);
    case Put(e, now) => var err, wake := db.PutEntry(e, now);
    case Commit(e, artifact, quota, replaceName, now, flushOk, ok) =>
      var err := db.CommitEntry(e, artifact, quota, replaceName, now, flushOk, ok);
    case Delete(k, ok) => var err := db.DeleteEntry(k, ok);
    case Evict(k, flushOk, ok) => var r := db.EvictEntry(k, flushOk, ok);
    case DropProject(project, flushOk, ok) => var r := db.DeleteProject(project, flushOk, ok);
    case Touches(touches, ok) => var err := db.TouchEntries(touches, ok);
    case Apply(project, expectedHead, id, source, sourceFails, now, flushOk, ok) =>
      var err := db.ApplySnapshot(project, expectedHead, id, source, sourceFails, now, flushOk, ok);
    case Sync(ok) => var err := db.Flush(ok);
    case Stop(flushOk) => var err := db.Close(flushOk);
  }

  method PerformAll(db: DB, calls: seq<Call>)
    requires db.Valid()
    modifies db, db.cache, db.cache.Repr
    ensures db.Valid() && fresh(db.cache.Repr - old(db.cache.Repr))
  {
    for i := 0 to |calls|
      invariant db.Valid() && fresh(db.cache.Repr - old(db.cache.Repr))
    {
      Perform(db, calls[i]);
    }
  }

  /** The project is as at the checkpoint, and every other project as it was just before. */
  ghost predicate RolledBack(checkpoint: View, before: View, project: string, after: View) {
    forall k: Key :: RolledAt(checkpoint, before, project, after, k)
  }

  predicate RolledAt(checkpoint: View, before: View, project: string, after: View, k: Key) {
    var view := if k.project == project then checkpoint else before;
    (k in after <==> k in view) && (k in after ==> after[k] == view[k])
  }

  lemma WalkRollsBack(entries: map<Key, Row>, rows: seq<Entry>, project: string, now: Time, before: View)
    requires IsWalk(rows, entries, project)
    ensures RolledBack(ViewOf(entries, map[]), before, project,
                       (before - KeysOf(before, project)) + Payloads(SourceRows(project, rows, now)))
  {
    WalkRows(Tables(map[], entries, map[], map[], map[], map[]), rows, project, now);
    var after := (before - KeysOf(before, project)) + Payloads(SourceRows(project, rows, now));
    forall k: Key ensures RolledAt(ViewOf(entries, map[]), before, project, after, k) {
    }
  }

  /** Applies what a walk of the project yielded when its rows were those of `entries`. With
      every call through, it is refused only for a HEAD that has moved, or an entry that no
      snapshot can carry or whose blob is gone. */
  method RollBack(
    db: DB, project: string, rows: seq<Entry>, ghost entries: map<Key, Row>, expectedHead: Option<string>, id: string,
    now: Time, flushOk: bool, ok: bool)
    returns (accepted: bool)
    requires db.Valid() && IsWalk(rows, entries, project)
    modifies db, db.cache`ll, db.cache`items, db.cache`Contents
    ensures db.Valid()
    ensures accepted ==> db.poolsOpen && RolledBack(ViewOf(entries, map[]), old(db.View()), project, db.View())
    ensures !accepted ==> db.View() == old(db.View())
    ensures !accepted && flushOk && ok && db.poolsOpen && project != "" && id != "" ==>
      || (expectedHead.Some? && HeadOf(db.tables, project) != expectedHead.value)
      || exists k :: k in entries && k.project == project && !Carries(db.tables, k, entries[k])
  {
    ghost var before := db.View();
    var err := db.ApplySnapshot(project, expectedHead, id, rows, false, now, flushOk, ok);
    accepted := err.None?;
    if accepted {
      WalkRollsBack(entries, rows, project, now, before);
    } else {
      RollbackRestores(Tables(map[], entries, map[], map[], map[], map[]), rows, db.tables, project, expectedHead, id,
        now);
    }
  }

  /** Every key of the project is as in the view. */
  ghost predicate ProjectAs(view: View, project: string, after: View) {
    forall k: Key :: k.project == project ==> (k in after <==> k in view) && (k in after ==> after[k] == view[k])
  }

  lemma RolledBackAs(checkpoint: View, before: View, project: string, after: View)
    requires RolledBack(checkpoint, before, project, after)
    ensures ProjectAs(checkpoint, project, after)
  {
    forall k: Key | k.project == project
      ensures (k in after <==> k in checkpoint) && (k in after ==> after[k] == checkpoint[k])
    {
      assert RolledAt(checkpoint, before, project, after, k);
    }
  }

  method UseAndRollBack(
    db: DB, project: string, rows: seq<Entry>, ghost entries: map<Key, Row>, calls: seq<Call>,
    expectedHead: Option<string>, id: string, now: Time, flushOk: bool, ok: bool)
    returns (accepted: bool)
    requires db.Valid() && IsWalk(rows, entries, project)
    modifies db, db.cache, db.cache.Repr
    ensures db.Valid() && fresh(db.cache.Repr - old(db.cache.Repr))
    ensures accepted ==> db.poolsOpen && ProjectAs(ViewOf(entries, map[]), project, db.View())
  {
    PerformAll(db, calls);
    ghost var before := db.View();
    accepted := RollBack(db, project, rows, entries, expectedHead, id, now, flushOk, ok);
    if accepted {
      RolledBackAs(ViewOf(entries, map[]), before, project, db.View());
    }
  }

  /** A checkpoint; then any calls; then a rollback to it. Whatever the calls did, if the rollback
      is accepted then every key of the project is as it was at the checkpoint. */
  method CheckpointAndRollBack(
    db: DB, project: string, calls: seq<Call>, expectedHead: Option<string>, id: string, now: Time,
    flushOk: bool, ok: bool)
    returns (accepted: bool)
    requires db.Valid()
    modifies db, db.cache, db.cache.Repr
    ensures db.Valid() && fresh(db.cache.Repr - old(db.cache.Repr))
    ensures accepted ==> db.poolsOpen && ProjectAs(old(db.View()), project, db.View())
  {
    var walked := db.WalkEntries(project, flushOk, ok);
    if walked.Err? {
      return false;
    }
    ghost var entries := db.tables.entries;
    assert db.View() == ViewOf(entries, map[]);
    accepted := UseAndRollBack(db, project, walked.value, entries, calls, expectedHead, id, now, flushOk, ok);
  }

  /** And so GetEntry answers every key of the project as the plain map held it then. */
  method ReadAfterRollBack(
    db: DB, project: string, calls: seq<Call>, expectedHead: Option<string>, id: string, now: Time,
    flushOk: bool, ok: bool, k: Key, readOk: bool)
    returns (accepted: bool, answer: Result<Entry>)
    requires db.Valid() && k.project == project
    modifies db, db.cache, db.cache.Repr
    ensures db.Valid() && fresh(db.cache.Repr - old(db.cache.Repr))
    ensures accepted && answer.Ok? ==> k in old(db.View()) && answer.value.Payload() == old(db.View())[k]
    ensures accepted && readOk ==> (answer.Ok? <==> k in old(db.View()))
  {
    accepted := CheckpointAndRollBack(db, project, calls, expectedHead, id, now, flushOk, ok);
    answer := db.GetEntry(k, readOk);
  }

  /** The same from opening a store: after any calls and a rollback to where it started, a read
      answers what the tables held when they were opened. */
  method OpenAndRollBack(
    tables: Tables, cacheSize: int, batchSize: int, project: string, calls: seq<Call>,
    expectedHead: Option<string>, id: string, now: Time, ok: bool, k: Key)
    returns (accepted: bool, answer: Result<Entry>)
    requires ForeignKeys(tables) && k.project == project
    ensures accepted && answer.Ok? ==>
      k in tables.entries && answer.value.Payload() == tables.entries[k].Payload()
    ensures accepted && answer.Err? ==> !ok || k !in tables.entries
  {
    var db := new DB(cacheSize, batchSize, tables);
    accepted, answer := ReadAfterRollBack(db, project, calls, expectedHead, id, now, ok, ok, k, ok);
  }
}
