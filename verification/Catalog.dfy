/** The catalog's tables as maps, and its transactions as functions on them. A transaction
    either yields the whole new database or leaves the old one. */
module Catalog {
  import opened Types

  datatype Row = Row(
    digest: Digest, size: int, mediaType: string, cachedAt: int, lastAccess: int, hits: int)
  {
    function Payload(): Content {
      Content(digest, size, mediaType)
    }

    /** A row read back as an entry. */
    function ToEntry(k: Key): Entry {
      Entry(k, digest, size, mediaType, FromTs(cachedAt), FromTs(lastAccess), hits)
    }
  }

  datatype BlobRow = BlobRow(size: int, createdAt: int, lastAccess: int)

  datatype RefKey = RefKey(project: string, eco: string, name: string)

  datatype ArtifactKey = ArtifactKey(project: string, eco: string, name: string, version: string, arch: string)

  datatype ArtifactRow = ArtifactRow(digest: Digest, size: int, origin: string, cachedAt: int)

  datatype Snapshot = Snapshot(project: string, manifest: Digest)

  datatype Tables = Tables(
    blobs: map<Digest, BlobRow>,
    entries: map<Key, Row>,
    refs: map<RefKey, string>,               // name -> target
    artifacts: map<ArtifactKey, ArtifactRow>,
    heads: map<string, string>,
    snapshots: map<string, Snapshot>)

  /** entries.sha256 REFERENCES blobs(sha256), enforced with foreign_keys(ON). */
  ghost predicate ForeignKeys(t: Tables) {
    forall k :: k in t.entries ==> t.entries[k].digest in t.blobs
  }

  /** The same condition where a statement checks it. */
  predicate BlobKnown(t: Tables, d: Digest) {
    d in t.blobs
  }

  // ---- upserts ------------------------------------------------------------------------

  function RowOf(e: Entry): Row {
    Row(e.digest, e.size, e.mediaType, Ts(e.cachedAt), Ts(e.lastAccess), e.hits)
  }

  function MergeRow(was: Option<Row>, e: Entry): Row {
    var r := RowOf(e);
    if was.None? then r
    else r.(lastAccess := Max(was.value.lastAccess, r.lastAccess), hits := was.value.hits + r.hits)
  }

  function Find<K, V>(m: map<K, V>, k: K): Option<V> {
    if k in m then Some(m[k]) else None
  }

  /** The blob upsert of a batch keeps the recorded size; that of CommitEntry replaces it. */
  function UpsertBlob(t: Tables, e: Entry, resize: bool): Tables {
    var upserted :=
      if e.digest in t.blobs then
        var b := t.blobs[e.digest];
        BlobRow(if resize then e.size else b.size, b.createdAt, Max(b.lastAccess, Ts(e.lastAccess)))
      else BlobRow(e.size, Ts(e.cachedAt), Ts(e.lastAccess));
    t.(blobs := t.blobs[e.digest := upserted])
  }

  function UpsertEntry(t: Tables, k: Key, e: Entry): Tables {
    t.(entries := t.entries[k := MergeRow(Find(t.entries, k), e)])
  }

  /** What a batch does to the entries table, in whatever order its rows are written. */
  function Merged(entries: map<Key, Row>, batch: map<Key, Entry>): map<Key, Row> {
    map k | k in entries.Keys + batch.Keys ::
      if k in batch then MergeRow(Find(entries, k), batch[k]) else entries[k]
  }

  // ---- quotas -------------------------------------------------------------------------

  datatype Quota = Quota(bytes: int, artifacts: int)

  datatype Artifact = Artifact(name: string, version: string, arch: string, origin: string, cachedAt: Time)

  datatype Error =
    | InvalidDigest
    | Closed
    | NotFound
    | InvalidSnapshot
    | NonFastForward
    | QuotaExceeded(bytes: bool, usage: int, limit: int, attempt: int)
    | Io

  datatype Result<+T> = Ok(value: T) | Err(error: Error)

  ghost function SumSizes(entries: map<Key, Row>): int {
    if entries == map[] then 0
    else
      var k :| k in entries;
      entries[k].size + SumSizes(entries - {k})
  }

  function OfProject(entries: map<Key, Row>, project: string): map<Key, Row> {
    map k | k in entries && k.project == project :: entries[k]
  }

  /** SELECT COALESCE(SUM(size), 0) FROM entries WHERE project = ? */
  ghost function Usage(t: Tables, project: string): int {
    SumSizes(OfProject(t.entries, project))
  }

  function ArtifactsOf(t: Tables, project: string): set<ArtifactKey> {
    set a | a in t.artifacts && a.project == project
  }

  function ArtifactsNamed(t: Tables, project: string, eco: string, name: string): set<ArtifactKey> {
    set a | a in t.artifacts && a.project == project && a.eco == eco && a.name == name
  }

  function KeyOfArtifact(e: Entry, a: Artifact): ArtifactKey {
    ArtifactKey(e.key.project, e.key.eco, a.name, a.version, a.arch)
  }

  /** The byte figure CommitEntry checks against the quota. */
  ghost function ProjectedBytes(t: Tables, e: Entry): int {
    var was := Find(t.entries, e.key);
    Usage(t, e.key.project) - (if was.Some? then was.value.size else 0) + e.size
  }

  /** The artifact figure CommitEntry checks against the quota. */
  function ProjectedArtifacts(t: Tables, e: Entry, a: Artifact, replaceName: bool): int {
    var count := |ArtifactsOf(t, e.key.project)|;
    if replaceName then count - |ArtifactsNamed(t, e.key.project, e.key.eco, a.name)| + 1
    else if KeyOfArtifact(e, a) in t.artifacts then count
    else count + 1
  }

  ghost function QuotaCheck(
    t: Tables, e: Entry, artifact: Option<Artifact>, quota: Quota, replaceName: bool): Option<Error>
  {
    var usage, projected := Usage(t, e.key.project), ProjectedBytes(t, e);
    if quota.bytes > 0 && projected > quota.bytes then
      Some(QuotaExceeded(true, usage, quota.bytes, projected))
    else if artifact.Some? && quota.artifacts > 0
      && ProjectedArtifacts(t, e, artifact.value, replaceName) > quota.artifacts then
      Some(QuotaExceeded(false, |ArtifactsOf(t, e.key.project)|, quota.artifacts,
                         ProjectedArtifacts(t, e, artifact.value, replaceName)))
    else None
  }

  function PublishArtifact(t: Tables, e: Entry, a: Artifact, replaceName: bool, now: Time): Tables {
    var kept := if replaceName then t.artifacts - ArtifactsNamed(t, e.key.project, e.key.eco, a.name) else t.artifacts;
    t.(artifacts := kept[KeyOfArtifact(e, a) := ArtifactRow(e.digest, e.size, a.origin, Ts(OrNow(a.cachedAt, now)))])
  }

  function Publish(t: Tables, e: Entry, artifact: Option<Artifact>, replaceName: bool, now: Time): Tables {
    var t1 := UpsertEntry(UpsertBlob(t, e, true), e.key, e);
    if artifact.Some? then PublishArtifact(t1, e, artifact.value, replaceName, now) else t1
  }

  /** CommitEntry's transaction. */
  ghost function CommitTx(
    t: Tables, e: Entry, artifact: Option<Artifact>, quota: Quota, replaceName: bool, now: Time): Result<Tables>
  {
    var refused := QuotaCheck(t, e, artifact, quota, replaceName);
    if refused.Some? then Err(refused.value) else Ok(Publish(t, e, artifact, replaceName, now))
  }

  // ---- deletes ------------------------------------------------------------------------

  function Referenced(t: Tables, d: Digest): bool {
    || (exists k :: k in t.entries && t.entries[k].digest == d)
    || (exists a :: a in t.artifacts && t.artifacts[a].digest == d)
    || (exists s :: s in t.snapshots && t.snapshots[s].manifest == d)
  }

  /** EvictEntry's transaction: the row, the refs that target the key, and the inventory
      rows of the same content in the same project and ecosystem. */
  function EvictTx(t: Tables, k: Key): Tables
    requires k in t.entries
  {
    var d := t.entries[k].digest;
    t.(entries := t.entries - {k},
       refs := map r | r in t.refs && !(r.project == k.project && r.eco == k.eco && t.refs[r] == k.key) :: t.refs[r],
       artifacts := map a | a in t.artifacts &&
         !(a.project == k.project && a.eco == k.eco && t.artifacts[a].digest == d) :: t.artifacts[a])
  }

  function WithoutProject(t: Tables, project: string): Tables {
    t.(entries := map k | k in t.entries && k.project != project :: t.entries[k],
       refs := map r | r in t.refs && r.project != project :: t.refs[r],
       artifacts := map a | a in t.artifacts && a.project != project :: t.artifacts[a])
  }

  function DropProjectTx(t: Tables, project: string): Tables {
    WithoutProject(t, project).(
      heads := t.heads - {project},
      snapshots := map s | s in t.snapshots && t.snapshots[s].project != project :: t.snapshots[s])
  }

  // ---- touches --------------------------------------------------------------------------

  datatype Touch = Touch(key: Key, digest: Digest, hits: int, lastAccess: Time)

  /** UPDATE, not upsert: a key that is gone stays gone. */
  function TouchTx(t: Tables, touch: Touch): Tables {
    var at := Ts(touch.lastAccess);
    var t1 :=
      if touch.key in t.entries then
        var r := t.entries[touch.key];
        t.(entries := t.entries[touch.key := r.(lastAccess := Max(r.lastAccess, at), hits := r.hits + touch.hits)])
      else t;
    if touch.digest == "" || touch.digest !in t1.blobs then t1
    else
      var b := t1.blobs[touch.digest];
      t1.(blobs := t1.blobs[touch.digest := b.(lastAccess := Max(b.lastAccess, at))])
  }

  function TouchAll(t: Tables, touches: seq<Touch>): Tables {
    if touches == [] then t else TouchTx(TouchAll(t, touches[..|touches| - 1]), touches[|touches| - 1])
  }

  // ---- snapshots --------------------------------------------------------------------------

  predicate GoodSnapshotEntry(project: string, e: Entry) {
    && (e.key.project == "" || e.key.project == project)
    && e.key.eco != "" && e.key.key != "" && ValidDigest(e.digest) && e.size >= 0
  }

  function SnapshotKey(project: string, e: Entry): Key {
    Key(project, e.key.eco, e.key.key)
  }

  function SnapshotRow(e: Entry, now: Time): Row {
    RowOf(e.(cachedAt := OrNow(e.cachedAt, now), lastAccess := OrNow(e.lastAccess, now)))
  }

  /** One yielded entry: a plain INSERT, so a repeated key or an unknown blob fails. */
  function YieldTx(t: Tables, project: string, e: Entry, now: Time): Result<Tables> {
    if !GoodSnapshotEntry(project, e) then Err(InvalidSnapshot)
    else if SnapshotKey(project, e) in t.entries || !BlobKnown(t, e.digest) then Err(Io)
    else Ok(t.(entries := t.entries[SnapshotKey(project, e) := SnapshotRow(e, now)]))
  }

  function YieldAll(t: Tables, project: string, source: seq<Entry>, now: Time): Result<Tables> {
    if source == [] then Ok(t)
    else
      var t1 := YieldAll(t, project, source[..|source| - 1], now);
      if t1.Err? then t1 else YieldTx(t1.value, project, source[|source| - 1], now)
  }

  function HeadOf(t: Tables, project: string): string {
    if project in t.heads then t.heads[project] else ""
  }

  /** ApplySnapshot's transaction, without an artifact index. A source that fails, fails
      the transaction whatever it yielded before. */
  function ApplyTx(
    t: Tables, project: string, expectedHead: Option<string>, id: string,
    source: seq<Entry>, sourceFails: bool, now: Time): Result<Tables>
  {
    if expectedHead.Some? && HeadOf(t, project) != expectedHead.value then Err(NonFastForward)
    else
      var t1 := YieldAll(WithoutProject(t, project), project, source, now);
      if t1.Err? then t1
      else if sourceFails then Err(Io)
      else Ok(t1.value.(heads := t1.value.heads[project := id]))
  }
}
