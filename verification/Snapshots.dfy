/** Checkpoint and rollback: applying what a walk yielded restores the project exactly. */
module Snapshots {
  import opened Types
  import opened Catalog

  /** The walk yields each row of the project exactly once. */
  ghost predicate IsWalk(rows: seq<Entry>, entries: map<Key, Row>, project: string) {
    && (forall i :: 0 <= i < |rows| ==>
          var k := rows[i].key;
          k in entries && k.project == project && rows[i] == entries[k].ToEntry(k))
    && (forall i, j :: 0 <= i < j < |rows| ==> rows[i].key != rows[j].key)
    && (forall k :: k in entries && k.project == project ==> Yields(rows, k))
  }

  ghost predicate Yields(rows: seq<Entry>, k: Key) {
    exists i :: 0 <= i < |rows| && rows[i].key == k
  }

  /** The rows a source describes; a key yielded twice counts once, as its last row. */
  function SourceRows(project: string, source: seq<Entry>, now: Time): map<Key, Row> {
    if source == [] then map[]
    else
      var last := source[|source| - 1];
      SourceRows(project, source[..|source| - 1], now)[SnapshotKey(project, last) := SnapshotRow(last, now)]
  }

  /** What the INSERT of one more entry needs: well-formed, a new key, a known blob. */
  ghost predicate Insertable(t: Tables, project: string, before: seq<Entry>, e: Entry) {
    && (e.key.project == "" || e.key.project == project)
    && e.key.eco != "" && e.key.key != "" && ValidDigest(e.digest) && e.size >= 0
    && Key(project, e.key.eco, e.key.key) !in t.entries
    && e.digest in t.blobs
    && forall i :: 0 <= i < |before| ==> SnapshotKey(project, before[i]) != SnapshotKey(project, e)
  }

  ghost predicate Restorable(t: Tables, project: string, source: seq<Entry>) {
    forall i :: 0 <= i < |source| ==> Insertable(t, project, source[..i], source[i])
  }

  lemma {:induction false} SourceKeys(project: string, source: seq<Entry>, now: Time, k: Key)
    ensures k in SourceRows(project, source, now) <==>
      exists i :: 0 <= i < |source| && SnapshotKey(project, source[i]) == k
  {
    if source != [] {
      var n := |source| - 1;
      SourceKeys(project, source[..n], now, k);
      assert forall i :: 0 <= i < n ==> source[..n][i] == source[i];
    }
  }

  lemma RestorablePrefix(t: Tables, project: string, source: seq<Entry>)
    requires source != []
    ensures var n := |source| - 1;
      Restorable(t, project, source) <==>
        Restorable(t, project, source[..n]) && Insertable(t, project, source[..n], source[n])
  {
    var n := |source| - 1;
    var init := source[..n];
    assert forall i :: 0 <= i < n ==> init[..i] == source[..i] && init[i] == source[i];
    if Restorable(t, project, source) {
      forall i | 0 <= i < n ensures Insertable(t, project, init[..i], init[i]) {
        assert Insertable(t, project, source[..i], source[i]);
      }
      assert Insertable(t, project, source[..n], source[n]);
    }
    if Restorable(t, project, init) && Insertable(t, project, init, source[n]) {
      forall i | 0 <= i < |source| ensures Insertable(t, project, source[..i], source[i]) {
        assert i < n ==> Insertable(t, project, init[..i], init[i]);
      }
    }
  }

  /** The source goes in exactly when every entry of it can, and then adds its rows and
      nothing else. */
  lemma {:induction false} YieldAllIff(t: Tables, project: string, source: seq<Entry>, now: Time)
    ensures YieldAll(t, project, source, now).Ok? <==> Restorable(t, project, source)
    ensures YieldAll(t, project, source, now).Ok? ==>
      YieldAll(t, project, source, now).value ==
        t.(entries := t.entries + SourceRows(project, source, now))
  {
    if source == [] {
      assert t.entries + map[] == t.entries;
      return;
    }
    var n := |source| - 1;
    YieldAllIff(t, project, source[..n], now);
    RestorablePrefix(t, project, source);
    var k := SnapshotKey(project, source[n]);
    SourceKeys(project, source[..n], now, k);
    var rows := SourceRows(project, source[..n], now);
    assert (t.entries + rows)[k := SnapshotRow(source[n], now)] == t.entries + rows[k := SnapshotRow(source[n], now)];
  }

  // ---- what a walk yields -----------------------------------------------------------------

  /** An entry a snapshot can carry, and a blob row for it in the tables it comes back to. */
  ghost predicate Carries(t: Tables, k: Key, r: Row) {
    k.eco != "" && k.key != "" && ValidDigest(r.digest) && r.size >= 0 && r.digest in t.blobs
  }

  lemma WalkRestorable(t0: Tables, rows: seq<Entry>, project: string, t1: Tables)
    requires IsWalk(rows, t0.entries, project)
    ensures Restorable(WithoutProject(t1, project), project, rows) <==>
      forall k :: k in t0.entries && k.project == project ==> Carries(t1, k, t0.entries[k])
  {
    var base := WithoutProject(t1, project);
    assert forall i :: 0 <= i < |rows| ==> SnapshotKey(project, rows[i]) == rows[i].key;
    if Restorable(base, project, rows) {
      forall k | k in t0.entries && k.project == project ensures Carries(t1, k, t0.entries[k]) {
        assert Yields(rows, k);
        var i :| 0 <= i < |rows| && rows[i].key == k;
        assert Insertable(base, project, rows[..i], rows[i]);
      }
    }
    if forall k :: k in t0.entries && k.project == project ==> Carries(t1, k, t0.entries[k]) {
      forall i | 0 <= i < |rows| ensures Insertable(base, project, rows[..i], rows[i]) {
        assert Carries(t1, rows[i].key, t0.entries[rows[i].key]);
      }
    }
  }

  lemma {:induction false} SourceRowAt(project: string, rows: seq<Entry>, now: Time, i: nat)
    requires i < |rows|
    requires forall a, b :: 0 <= a < b < |rows| ==> SnapshotKey(project, rows[a]) != SnapshotKey(project, rows[b])
    ensures var k := SnapshotKey(project, rows[i]);
      k in SourceRows(project, rows, now) && SourceRows(project, rows, now)[k] == SnapshotRow(rows[i], now)
  {
    var n := |rows| - 1;
    if i < n {
      assert forall a :: 0 <= a < n ==> rows[..n][a] == rows[a];
      SourceRowAt(project, rows[..n], now, i);
    }
  }

  /** The rows a rollback inserts are the rows of the checkpoint, key by key. */
  lemma WalkRows(t0: Tables, rows: seq<Entry>, project: string, now: Time)
    requires IsWalk(rows, t0.entries, project)
    ensures SourceRows(project, rows, now).Keys == OfProject(t0.entries, project).Keys
    ensures forall k :: k in OfProject(t0.entries, project) ==>
      && k in SourceRows(project, rows, now)
      && SourceRows(project, rows, now)[k] == SnapshotRow(t0.entries[k].ToEntry(k), now)
  {
    assert forall i :: 0 <= i < |rows| ==> SnapshotKey(project, rows[i]) == rows[i].key;
    forall k ensures k in SourceRows(project, rows, now) <==> k in OfProject(t0.entries, project) {
      SourceKeys(project, rows, now, k);
      assert k in OfProject(t0.entries, project) ==> Yields(rows, k);
    }
    forall k | k in OfProject(t0.entries, project)
      ensures SourceRows(project, rows, now)[k] == SnapshotRow(t0.entries[k].ToEntry(k), now)
    {
      assert Yields(rows, k);
      var i :| 0 <= i < |rows| && rows[i].key == k;
      SourceRowAt(project, rows, now, i);
    }
  }

  function PayloadAt(t: Tables, k: Key): Option<Content> {
    if k in t.entries then Some(t.entries[k].Payload()) else None
  }

  /** Rollback. Let `rows` be what a walk of the project yielded at t0. Applied later to any
      tables t1, whatever happened in between, it succeeds exactly when HEAD is the expected
      one, every entry is one a snapshot can carry, and its blob is still recorded; and then
      the project answers every key as it did at t0, no other project has changed, refs and
      inventory of the project are cleared, and HEAD is the snapshot. */
  lemma RollbackRestores(
    t0: Tables, rows: seq<Entry>, t1: Tables, project: string,
    expectedHead: Option<string>, id: string, now: Time)
    requires IsWalk(rows, t0.entries, project)
    ensures
      var r := ApplyTx(t1, project, expectedHead, id, rows, false, now);
      && (r.Ok? <==>
            && (expectedHead.Some? ==> HeadOf(t1, project) == expectedHead.value)
            && forall k :: k in t0.entries && k.project == project ==> Carries(t1, k, t0.entries[k]))
      && (r.Ok? ==>
            && (forall k: Key :: PayloadAt(r.value, k) == PayloadAt(if k.project == project then t0 else t1, k))
            && OtherRowsKept(t1, r.value, project)
            && HeadOf(r.value, project) == id)
  {
    var base := WithoutProject(t1, project);
    WalkRestorable(t0, rows, project, t1);
    YieldAllIff(base, project, rows, now);
    var r := ApplyTx(t1, project, expectedHead, id, rows, false, now);
    if r.Ok? {
      assert r.value.entries == base.entries + SourceRows(project, rows, now);
      forall k: Key
        ensures PayloadAt(r.value, k) == PayloadAt(if k.project == project then t0 else t1, k)
        ensures k in t1.entries && k.project != project ==> k in r.value.entries && r.value.entries[k] == t1.entries[k]
      {
        RestoredPayload(t0, t1, r.value, rows, project, now, k);
      }
      assert OtherRowsKept(t1, r.value, project);
    }
  }

  lemma RestoredPayload(t0: Tables, t1: Tables, t': Tables, rows: seq<Entry>, project: string, now: Time, k: Key)
    requires IsWalk(rows, t0.entries, project)
    requires t'.entries == WithoutProject(t1, project).entries + SourceRows(project, rows, now)
    ensures PayloadAt(t', k) == PayloadAt(if k.project == project then t0 else t1, k)
    ensures k in t1.entries && k.project != project ==> k in t'.entries && t'.entries[k] == t1.entries[k]
  {
    WalkRows(t0, rows, project, now);
    assert k in SourceRows(project, rows, now) <==> k in OfProject(t0.entries, project);
    assert k in WithoutProject(t1, project).entries <==> k in t1.entries && k.project != project;
  }

  /** A stored time comes back as it was, except that none, or the zero time, becomes the time of
      the rollback. */
  function Restored(seconds: int, now: Time): int {
    if seconds == 0 || seconds == -62_135_596_800 then Ts(now) else seconds
  }

  lemma TimeRestored(seconds: int, now: Time)
    ensures Ts(OrNow(FromTs(seconds), now)) == Restored(seconds, now)
  {
    assert seconds * SECOND / SECOND == seconds;
    assert seconds * SECOND == ZERO_TIME <==> seconds == ZERO_SECONDS;
  }

  /** Every column of a row that a rollback brings back. */
  lemma RestoredRow(
    t0: Tables, rows: seq<Entry>, t1: Tables, project: string,
    expectedHead: Option<string>, id: string, now: Time, k: Key)
    requires IsWalk(rows, t0.entries, project) && k in t0.entries && k.project == project
    requires ApplyTx(t1, project, expectedHead, id, rows, false, now).Ok?
    ensures var after, was := ApplyTx(t1, project, expectedHead, id, rows, false, now).value.entries, t0.entries[k];
      && k in after
      && after[k].digest == was.digest && after[k].size == was.size && after[k].mediaType == was.mediaType
      && after[k].hits == was.hits
      && after[k].cachedAt == Restored(was.cachedAt, now) && after[k].lastAccess == Restored(was.lastAccess, now)
  {
    YieldAllIff(WithoutProject(t1, project), project, rows, now);
    WalkRows(t0, rows, project, now);
    assert k in OfProject(t0.entries, project);
    TimeRestored(t0.entries[k].cachedAt, now);
    TimeRestored(t0.entries[k].lastAccess, now);
  }

  /** Everything of other projects is untouched, row for row; the project's refs and
      inventory are gone. */
  ghost predicate OtherRowsKept(t: Tables, t': Tables, project: string) {
    && t'.blobs == t.blobs && t'.snapshots == t.snapshots
    && (forall k :: k in t.entries && k.project != project ==> k in t'.entries && t'.entries[k] == t.entries[k])
    && (forall r :: r in t'.refs <==> r in t.refs && r.project != project)
    && (forall r :: r in t'.refs ==> t'.refs[r] == t.refs[r])
    && (forall a :: a in t'.artifacts <==> a in t.artifacts && a.project != project)
    && (forall a :: a in t'.artifacts ==> t'.artifacts[a] == t.artifacts[a])
    && (forall p :: p != project && p in t.heads ==> p in t'.heads && t'.heads[p] == t.heads[p])
  }

  /** A source with one bad entry, or that fails, or a wrong HEAD: nothing is applied. */
  lemma BadSourceRefused(
    t: Tables, project: string, expectedHead: Option<string>, id: string,
    source: seq<Entry>, sourceFails: bool, now: Time)
    ensures ApplyTx(t, project, expectedHead, id, source, sourceFails, now).Ok? <==>
      && (expectedHead.Some? ==> HeadOf(t, project) == expectedHead.value)
      && !sourceFails
      && Restorable(WithoutProject(t, project), project, source)
  {
    YieldAllIff(WithoutProject(t, project), project, source, now);
  }

  lemma ApplyKeepsForeignKeys(
    t: Tables, project: string, expectedHead: Option<string>, id: string,
    source: seq<Entry>, sourceFails: bool, now: Time)
    requires ForeignKeys(t)
    ensures var r := ApplyTx(t, project, expectedHead, id, source, sourceFails, now);
      r.Ok? ==>
        && ForeignKeys(r.value)
        && r.value.entries == WithoutProject(t, project).entries + SourceRows(project, source, now)
  {
    var base := WithoutProject(t, project);
    YieldAllIff(base, project, source, now);
    if Restorable(base, project, source) {
      SourceDigests(base, project, source, now);
    }
  }

  lemma {:induction false} SourceDigests(t: Tables, project: string, source: seq<Entry>, now: Time)
    requires Restorable(t, project, source)
    ensures forall k :: k in SourceRows(project, source, now) ==>
      SourceRows(project, source, now)[k].digest in t.blobs && k.project == project
  {
    if source != [] {
      RestorablePrefix(t, project, source);
      SourceDigests(t, project, source[..|source| - 1], now);
    }
  }
}
