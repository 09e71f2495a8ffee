/** What the catalog's transactions leave in each row, column by column. */
module CatalogLaws {
  import opened Types
  import opened Catalog

  // ---- touches ------------------------------------------------------------------------------

  /** The hits that touches add to a key. */
  function HitsOf(touches: seq<Touch>, k: Key): int {
    if touches == [] then 0
    else
      var last := touches[|touches| - 1];
      HitsOf(touches[..|touches| - 1], k) + if last.key == k then last.hits else 0
  }

  /** The greatest of what a column held and these readings. */
  ghost predicate IsLatest(was: int, readings: set<int>, now: int) {
    was <= now && (forall r :: r in readings ==> r <= now) && (now == was || now in readings)
  }

  ghost function ReadingsOf(touches: seq<Touch>, k: Key): set<int> {
    set i | 0 <= i < |touches| && touches[i].key == k :: Ts(touches[i].lastAccess)
  }

  ghost function BlobReadings(touches: seq<Touch>, d: Digest): set<int> {
    set i | 0 <= i < |touches| && touches[i].digest == d && d != "" :: Ts(touches[i].lastAccess)
  }

  /** The row has the hits of the touches added, and the latest of its own and their times. */
  ghost predicate RowTouched(was: Row, touches: seq<Touch>, k: Key, now: Row) {
    && now.hits == was.hits + HitsOf(touches, k)
    && IsLatest(was.lastAccess, ReadingsOf(touches, k), now.lastAccess)
    && now == was.(hits := now.hits, lastAccess := now.lastAccess)
  }

  ghost predicate BlobTouched(was: BlobRow, touches: seq<Touch>, d: Digest, now: BlobRow) {
    && IsLatest(was.lastAccess, BlobReadings(touches, d), now.lastAccess)
    && now == was.(lastAccess := now.lastAccess)
  }

  ghost predicate Touched(t: Tables, touches: seq<Touch>, t': Tables) {
    && t'.entries.Keys == t.entries.Keys && t'.blobs.Keys == t.blobs.Keys
    && (forall k :: k in t.entries ==> RowTouched(t.entries[k], touches, k, t'.entries[k]))
    && (forall d :: d in t.blobs ==> BlobTouched(t.blobs[d], touches, d, t'.blobs[d]))
    && t' == t.(entries := t'.entries, blobs := t'.blobs)
  }

  lemma ReadingsNext(touches: seq<Touch>, k: Key, d: Digest)
    requires touches != []
    ensures var last, rest := touches[|touches| - 1], touches[..|touches| - 1];
      && ReadingsOf(touches, k) == ReadingsOf(rest, k) + (if last.key == k then {Ts(last.lastAccess)} else {})
      && BlobReadings(touches, d) ==
           BlobReadings(rest, d) + (if last.digest == d && d != "" then {Ts(last.lastAccess)} else {})
  {
    var n := |touches| - 1;
    assert forall i :: 0 <= i < n ==> touches[..n][i] == touches[i];
  }

  lemma LatestNext(was: int, readings: set<int>, now: int, r: int)
    requires IsLatest(was, readings, now)
    ensures IsLatest(was, readings + {r}, Max(now, r))
  {
  }

  /** One more touch of a row. */
  lemma RowTouchedNext(was: Row, touches: seq<Touch>, k: Key, mid: Row)
    requires touches != [] && RowTouched(was, touches[..|touches| - 1], k, mid)
    ensures var last := touches[|touches| - 1];
      RowTouched(was, touches, k, TouchedRow(mid, last, k))
  {
    var last, rest := touches[|touches| - 1], touches[..|touches| - 1];
    ReadingsNext(touches, k, "");
    LatestNext(was.lastAccess, ReadingsOf(rest, k), mid.lastAccess, Ts(last.lastAccess));
    assert ReadingsOf(rest, k) + {} == ReadingsOf(rest, k);
  }

  lemma BlobTouchedNext(was: BlobRow, touches: seq<Touch>, d: Digest, mid: BlobRow)
    requires touches != [] && BlobTouched(was, touches[..|touches| - 1], d, mid)
    ensures var last := touches[|touches| - 1];
      BlobTouched(was, touches, d, TouchedBlob(mid, last, d))
  {
    var last, rest := touches[|touches| - 1], touches[..|touches| - 1];
    ReadingsNext(touches, Key("", "", ""), d);
    LatestNext(was.lastAccess, BlobReadings(rest, d), mid.lastAccess, Ts(last.lastAccess));
    assert BlobReadings(rest, d) + {} == BlobReadings(rest, d);
  }

  /** One touch, column by column. */
  lemma TouchTxEntries(t: Tables, last: Touch)
    ensures var t' := TouchTx(t, last);
      && t'.entries.Keys == t.entries.Keys
      && forall k :: k in t.entries ==> t'.entries[k] == TouchedRow(t.entries[k], last, k)
  {
    var entries := TouchTx(t, last).entries;
    if last.key in t.entries {
      assert entries == t.entries[last.key := TouchedRow(t.entries[last.key], last, last.key)];
    } else {
      assert entries == t.entries;
    }
  }

  lemma TouchTxBlobs(t: Tables, last: Touch)
    ensures var t' := TouchTx(t, last);
      && t'.blobs.Keys == t.blobs.Keys
      && forall d :: d in t.blobs ==> t'.blobs[d] == TouchedBlob(t.blobs[d], last, d)
  {
    var blobs := TouchTx(t, last).blobs;
    if last.digest != "" && last.digest in t.blobs {
      assert blobs == t.blobs[last.digest := TouchedBlob(t.blobs[last.digest], last, last.digest)];
    } else {
      assert blobs == t.blobs;
    }
  }

  lemma TouchTxRest(t: Tables, last: Touch)
    ensures var t' := TouchTx(t, last); t' == t.(entries := t'.entries, blobs := t'.blobs)
  {
  }

  function TouchedRow(row: Row, last: Touch, k: Key): Row {
    if last.key != k then row
    else row.(lastAccess := Max(row.lastAccess, Ts(last.lastAccess)), hits := row.hits + last.hits)
  }

  function TouchedBlob(row: BlobRow, last: Touch, d: Digest): BlobRow {
    if last.digest != d || d == "" then row else row.(lastAccess := Max(row.lastAccess, Ts(last.lastAccess)))
  }

  lemma TouchedNext(t: Tables, touches: seq<Touch>, mid: Tables, t': Tables)
    requires touches != [] && Touched(t, touches[..|touches| - 1], mid)
    requires t' == TouchTx(mid, touches[|touches| - 1])
    ensures Touched(t, touches, t')
  {
    var last := touches[|touches| - 1];
    TouchTxEntries(mid, last);
    TouchTxBlobs(mid, last);
    TouchTxRest(mid, last);
    forall k | k in t.entries ensures RowTouched(t.entries[k], touches, k, t'.entries[k]) {
      RowTouchedNext(t.entries[k], touches, k, mid.entries[k]);
    }
    forall d | d in t.blobs ensures BlobTouched(t.blobs[d], touches, d, t'.blobs[d]) {
      BlobTouchedNext(t.blobs[d], touches, d, mid.blobs[d]);
    }
  }

  /** Touches add their hits to the rows that exist, and take each row's and each blob's last
      access to the latest of its own and theirs. Nothing else changes. */
  lemma {:induction false} TouchesAdd(t: Tables, touches: seq<Touch>)
    ensures Touched(t, touches, TouchAll(t, touches))
  {
    if touches != [] {
      var rest := touches[..|touches| - 1];
      TouchesAdd(t, rest);
      TouchedNext(t, touches, TouchAll(t, rest), TouchAll(t, touches));
    }
  }

  // ---- commits --------------------------------------------------------------------------------

  /** Written over a row, an entry replaces what is served, adds its hits and keeps the later
      access. */
  ghost predicate EntryWritten(before: map<Key, Row>, e: Entry, row: Row) {
    && row.digest == e.digest && row.size == e.size && row.mediaType == e.mediaType && row.cachedAt == Ts(e.cachedAt)
    && row.hits == (if e.key in before then before[e.key].hits else 0) + e.hits
    && (e.key in before ==> IsLatest(before[e.key].lastAccess, {Ts(e.lastAccess)}, row.lastAccess))
    && (e.key !in before ==> row.lastAccess == Ts(e.lastAccess))
  }

  /** A commit records the size it was given, and the blob's first time and latest access. */
  ghost predicate BlobCommitted(before: map<Digest, BlobRow>, e: Entry, row: BlobRow) {
    && row.size == e.size
    && row.createdAt == (if e.digest in before then before[e.digest].createdAt else Ts(e.cachedAt))
    && (e.digest in before ==> IsLatest(before[e.digest].lastAccess, {Ts(e.lastAccess)}, row.lastAccess))
    && (e.digest !in before ==> row.lastAccess == Ts(e.lastAccess))
  }

  /** The inventory has the row of this commit, and of the others all but those it replaces. */
  ghost predicate Inventoried(
    before: map<ArtifactKey, ArtifactRow>, e: Entry, a: Artifact, replaceName: bool, now: Time,
    after: map<ArtifactKey, ArtifactRow>)
  {
    var key := ArtifactKey(e.key.project, e.key.eco, a.name, a.version, a.arch);
    && key in after
    && after[key].digest == e.digest && after[key].size == e.size && after[key].origin == a.origin
    && after[key].cachedAt == (if a.cachedAt == ZERO_TIME then Ts(now) else Ts(a.cachedAt))
    && (forall x :: x != key ==> (x in after <==> x in before && !(replaceName && SameName(x, key))))
    && (forall x :: x != key && x in after ==> after[x] == before[x])
  }

  predicate SameName(x: ArtifactKey, y: ArtifactKey) {
    x.project == y.project && x.eco == y.eco && x.name == y.name
  }

  /** What a commit that meets its quota leaves in every table. */
  lemma CommitLeaves(
    t: Tables, e: Entry, artifact: Option<Artifact>, quota: Quota, replaceName: bool, now: Time, t': Tables)
    requires CommitTx(t, e, artifact, quota, replaceName, now) == Ok(t')
    ensures e.key in t'.entries && EntryWritten(t.entries, e, t'.entries[e.key])
    ensures t'.entries == t.entries[e.key := t'.entries[e.key]]
    ensures e.digest in t'.blobs && BlobCommitted(t.blobs, e, t'.blobs[e.digest])
    ensures t'.blobs == t.blobs[e.digest := t'.blobs[e.digest]]
    ensures if artifact.None? then t'.artifacts == t.artifacts
            else Inventoried(t.artifacts, e, artifact.value, replaceName, now, t'.artifacts)
    ensures t'.refs == t.refs && t'.heads == t.heads && t'.snapshots == t.snapshots
  {
  }

  // ---- batches --------------------------------------------------------------------------------

  /** Each queued entry is written over its row, and no other row changes. */
  lemma MergedRows(entries: map<Key, Row>, batch: map<Key, Entry>)
    requires forall k :: k in batch ==> batch[k].key == k
    ensures forall k :: k in Merged(entries, batch) <==> k in entries || k in batch
    ensures forall k :: k in batch ==> EntryWritten(entries, batch[k], Merged(entries, batch)[k])
    ensures forall k :: k in entries && k !in batch ==> Merged(entries, batch)[k] == entries[k]
  {
  }

  ghost function AccessesOf(batch: map<Key, Entry>, d: Digest): set<int> {
    set k | k in batch && batch[k].digest == d :: Ts(batch[k].lastAccess)
  }

  /** A blob that was known keeps its size and its first time; a new one has those of an entry
      of the batch. Its last access is the latest of all. */
  ghost predicate BlobWritten(before: map<Digest, BlobRow>, batch: map<Key, Entry>, d: Digest, row: BlobRow) {
    && (d in before ==>
          && row.size == before[d].size && row.createdAt == before[d].createdAt
          && IsLatest(before[d].lastAccess, AccessesOf(batch, d), row.lastAccess))
    && (d !in before ==>
          && (exists k :: k in batch && Recorded(batch[k], d, row))
          && (forall r :: r in AccessesOf(batch, d) ==> r <= row.lastAccess)
          && row.lastAccess in AccessesOf(batch, d))
  }

  predicate Recorded(e: Entry, d: Digest, row: BlobRow) {
    e.digest == d && row.size == e.size && row.createdAt == Ts(e.cachedAt)
  }

  ghost predicate BlobsWritten(before: map<Digest, BlobRow>, batch: map<Key, Entry>, after: map<Digest, BlobRow>) {
    forall d :: d in after ==> BlobWritten(before, batch, d, after[d])
  }

  lemma AccessesNext(batch: map<Key, Entry>, k: Key, e: Entry, d: Digest)
    requires k !in batch
    ensures AccessesOf(batch[k := e], d) ==
      AccessesOf(batch, d) + (if e.digest == d then {Ts(e.lastAccess)} else {})
  {
    var more := batch[k := e];
    forall r | r in AccessesOf(batch, d) ensures r in AccessesOf(more, d) {
      var j :| j in batch && batch[j].digest == d && r == Ts(batch[j].lastAccess);
      assert j in more && more[j] == batch[j];
    }
    if e.digest == d {
      assert more[k] == e;
    }
  }

  /** One more row of the batch, in the statement that keeps a recorded size. */
  lemma BlobWrittenNext(
    before: map<Digest, BlobRow>, blobs: map<Digest, BlobRow>, batch: map<Key, Entry>, k: Key, e: Entry, d: Digest,
    row: BlobRow)
    requires before.Keys <= blobs.Keys && k !in batch
    requires d in blobs ==> BlobWritten(before, batch, d, blobs[d])
    requires forall j :: j in batch ==> batch[j].digest in blobs
    requires if d != e.digest then d in blobs && row == blobs[d]
             else if d in blobs then row == blobs[d].(lastAccess := Max(blobs[d].lastAccess, Ts(e.lastAccess)))
             else row == BlobRow(e.size, Ts(e.cachedAt), Ts(e.lastAccess))
    ensures BlobWritten(before, batch[k := e], d, row)
  {
    AccessesNext(batch, k, e, d);
    var more := batch[k := e];
    if d !in blobs {
      assert Recorded(more[k], d, row);
      assert AccessesOf(batch, d) == {};
    } else if d !in before {
      var j :| j in batch && Recorded(batch[j], d, blobs[d]);
      assert j in more && Recorded(more[j], d, row);
    }
  }

  lemma BlobsWrittenNext(t0: Tables, t: Tables, batch: map<Key, Entry>, k: Key, e: Entry)
    requires t0.blobs.Keys <= t.blobs.Keys && BlobsWritten(t0.blobs, batch, t.blobs) && k !in batch
    requires forall j :: j in batch ==> batch[j].digest in t.blobs
    ensures BlobsWritten(t0.blobs, batch[k := e], UpsertBlob(t, e, false).blobs)
  {
    var after := UpsertBlob(t, e, false).blobs;
    forall d | d in after ensures BlobWritten(t0.blobs, batch[k := e], d, after[d]) {
      assert d in t.blobs ==> BlobWritten(t0.blobs, batch, d, t.blobs[d]);
      BlobWrittenNext(t0.blobs, t.blobs, batch, k, e, d, after[d]);
    }
  }
}
