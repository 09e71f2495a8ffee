/** The catalog's write-behind store with its methods run one at a time: pending writes, an
    LRU and the tables, refining one plain map from key to content. Whether a transaction or
    a read succeeds is a parameter of the call. */
module CatalogDb {
  import opened Types
  import opened Catalog
  import opened Snapshots
  import CatalogLaws
  import Quotas
  import Lru

  type View = map<Key, Content>

  /** The table overridden by what is queued. */
  function ViewOf(entries: map<Key, Row>, pending: map<Key, Entry>): View {
    map k | k in entries.Keys + pending.Keys ::
      if k in pending then pending[k].Payload() else entries[k].Payload()
  }

  function KeysOf(view: View, project: string): set<Key> {
    set k | k in view && k.project == project
  }

  function Payloads(rows: map<Key, Row>): View {
    map k | k in rows :: rows[k].Payload()
  }

  /** Every cached entry is the current one. */
  ghost predicate Agrees(s: Lru.Recency, view: View) {
    forall e :: e in s ==> e.key in view && view[e.key] == e.Payload()
  }

  ghost predicate Queued(pending: map<Key, Entry>) {
    forall k :: k in pending ==> pending[k].key == k && ValidDigest(pending[k].digest)
  }

  function Restrict<K, V>(m: map<K, V>, keys: set<K>): map<K, V> {
    map k | k in m && k in keys :: m[k]
  }

  // ---- the cache against the view -----------------------------------------------------

  lemma AgreesPut(s: Lru.Recency, capacity: nat, e: Entry, view: View)
    requires Lru.Distinct(s) && Agrees(s, view)
    ensures Agrees(Lru.Step(s, capacity, Lru.Put(e)), view[e.key := e.Payload()])
  {
    Lru.WithoutShape(s, e.key);
  }

  /** The entry is cached, as it was written. */
  ghost predicate Caches(s: Lru.Recency, e: Entry) {
    Lru.Lookup(s, e.key) == Some(e)
  }

  lemma AgreesFill(s: Lru.Recency, capacity: nat, e: Entry, view: View)
    requires Lru.Distinct(s) && Agrees(s, view) && e.key in view && view[e.key] == e.Payload()
    ensures Agrees(Lru.Step(s, capacity, Lru.Put(e)), view)
  {
    Lru.WithoutShape(s, e.key);
  }

  lemma AgreesGet(s: Lru.Recency, capacity: nat, k: Key, view: View)
    requires Lru.Distinct(s) && Agrees(s, view)
    ensures Agrees(Lru.Step(s, capacity, Lru.Get(k)), view)
  {
    Lru.WithoutShape(s, k);
  }

  lemma AgreesDrop(s: Lru.Recency, capacity: nat, k: Key, view: View, view': View)
    requires Lru.Distinct(s) && Agrees(s, view)
    requires forall j :: j in view && j != k ==> j in view' && view'[j] == view[j]
    ensures Agrees(Lru.Step(s, capacity, Lru.Drop(k)), view')
  {
    Lru.WithoutShape(s, k);
  }

  lemma AgreesDropProject(s: Lru.Recency, capacity: nat, project: string, view: View, view': View)
    requires Lru.Distinct(s) && Agrees(s, view)
    requires forall j :: j in view && j.project != project ==> j in view' && view'[j] == view[j]
    ensures Agrees(Lru.Step(s, capacity, Lru.DropProject(project)), view')
  {
    Lru.ProjectShape(s, project);
  }

  /** Both times default to the moment of the call. */
  function Dated(e: Entry, now: Time): Entry {
    e.(cachedAt := OrNow(e.cachedAt, now), lastAccess := OrNow(e.lastAccess, now))
  }

  // ---- the view ---------------------------------------------------------------------------

  lemma ViewPut(entries: map<Key, Row>, pending: map<Key, Entry>, k: Key, e: Entry)
    ensures ViewOf(entries, pending[k := e]) == ViewOf(entries, pending)[k := e.Payload()]
  {
  }

  lemma ViewFlushed(entries: map<Key, Row>, pending: map<Key, Entry>)
    ensures ViewOf(Merged(entries, pending), map[]) == ViewOf(entries, pending)
  {
  }

  lemma ViewDeleted(entries: map<Key, Row>, pending: map<Key, Entry>, k: Key)
    ensures ViewOf(entries - {k}, pending - {k}) == ViewOf(entries, pending) - {k}
  {
  }

  lemma ViewDropped(t: Tables, project: string)
    ensures
      var view := ViewOf(t.entries, map[]);
      && ViewOf(WithoutProject(t, project).entries, map[]) == view - KeysOf(view, project)
      && (set k | k in t.entries && k.project == project) == KeysOf(view, project)
  {
  }

  lemma ViewUpserted(entries: map<Key, Row>, k: Key, e: Entry)
    ensures ViewOf(entries[k := MergeRow(Find(entries, k), e)], map[]) == ViewOf(entries, map[])[k := e.Payload()]
  {
  }

  lemma ViewReplaced(entries: map<Key, Row>, kept: map<Key, Row>, added: map<Key, Row>, project: string)
    requires forall k :: k in kept <==> k in entries && k.project != project
    requires forall k :: k in kept ==> kept[k] == entries[k]
    ensures ViewOf(kept + added, map[]) ==
      (ViewOf(entries, map[]) - KeysOf(ViewOf(entries, map[]), project)) + Payloads(added)
  {
  }

  lemma ViewSame(a: map<Key, Row>, b: map<Key, Row>, pending: map<Key, Entry>)
    requires a.Keys == b.Keys && forall k :: k in a ==> a[k].Payload() == b[k].Payload()
    ensures ViewOf(a, pending) == ViewOf(b, pending)
  {
  }

  lemma MergedOneMore(entries: map<Key, Row>, batch: map<Key, Entry>, done: set<Key>, k: Key)
    requires k in batch && k !in done
    ensures
      var soFar := Merged(entries, Restrict(batch, done));
      soFar[k := MergeRow(Find(soFar, k), batch[k])] == Merged(entries, Restrict(batch, done + {k}))
  {
    assert Find(Merged(entries, Restrict(batch, done)), k) == Find(entries, k);
  }

  function DigestsOf(batch: map<Key, Entry>): set<Digest> {
    set k | k in batch :: batch[k].digest
  }

  lemma DigestsOneMore(batch: map<Key, Entry>, done: set<Key>, k: Key)
    requires k in batch
    ensures DigestsOf(Restrict(batch, done + {k})) == DigestsOf(Restrict(batch, done)) + {batch[k].digest}
  {
    assert Restrict(batch, done + {k}) == Restrict(batch, done)[k := batch[k]];
    var some, more := Restrict(batch, done), Restrict(batch, done + {k});
    assert k in more;
    assert forall j :: j in some ==> j in more && more[j] == some[j];
  }

  /** What a batch leaves in the tables. A new blob's size and first time depend on the order the
      rows are written in; the entries do not. */
  ghost predicate Wrote(t: Tables, batch: map<Key, Entry>, t': Tables) {
    && ForeignKeys(t')
    && t'.entries == Merged(t.entries, batch)
    && t'.blobs.Keys == t.blobs.Keys + DigestsOf(batch)
    && CatalogLaws.BlobsWritten(t.blobs, batch, t'.blobs)
    && t' == t.(entries := t'.entries, blobs := t'.blobs)
  }

  lemma WroteNone(t: Tables, batch: map<Key, Entry>)
    requires ForeignKeys(t)
    ensures Wrote(t, Restrict(batch, {}), t)
    ensures Restrict(batch, batch.Keys) == batch
  {
    assert Merged(t.entries, Restrict(batch, {})) == t.entries;
  }

  lemma BlobsOneMore(t: Tables, batch: map<Key, Entry>, done: set<Key>, k: Key, t': Tables)
    requires CatalogLaws.BlobsWritten(t.blobs, Restrict(batch, done), t'.blobs)
    requires t'.blobs.Keys == t.blobs.Keys + DigestsOf(Restrict(batch, done)) && k in batch && k !in done
    ensures CatalogLaws.BlobsWritten(
      t.blobs, Restrict(batch, done + {k}), UpsertEntry(UpsertBlob(t', batch[k], false), k, batch[k]).blobs)
  {
    var some := Restrict(batch, done);
    assert some[k := batch[k]] == Restrict(batch, done + {k});
    forall j | j in some ensures some[j].digest in t'.blobs {
      assert some[j].digest in DigestsOf(some);
    }
    CatalogLaws.BlobsWrittenNext(t, t', some, k, batch[k]);
  }

  lemma WroteOneMore(t: Tables, batch: map<Key, Entry>, done: set<Key>, k: Key, t': Tables)
    requires Wrote(t, Restrict(batch, done), t') && k in batch && k !in done
    ensures Wrote(t, Restrict(batch, done + {k}), UpsertEntry(UpsertBlob(t', batch[k], false), k, batch[k]))
  {
    MergedOneMore(t.entries, batch, done, k);
    DigestsOneMore(batch, done, k);
    BlobsOneMore(t, batch, done, k, t');
    var t1 := UpsertBlob(t', batch[k], false);
    assert t1.blobs.Keys == t'.blobs.Keys + {batch[k].digest};
    UpsertKeepsForeignKeys(t', k, batch[k], false);
  }

  lemma UpsertKeepsForeignKeys(t: Tables, k: Key, e: Entry, resize: bool)
    requires ForeignKeys(t)
    ensures ForeignKeys(UpsertEntry(UpsertBlob(t, e, resize), k, e))
  {
  }

  // ---- the store ------------------------------------------------------------------------

  /** A flush that succeeds empties the queue into the table; one that fails changes
      nothing. */
  ghost predicate Flushed(
    pending: map<Key, Entry>, t: Tables, pending': map<Key, Entry>, t': Tables, ok: bool)
  {
    if ok then pending' == map[] && (if pending == map[] then t' == t else Wrote(t, pending, t'))
    else pending' == pending && t' == t
  }

  lemma FlushedView(pending: map<Key, Entry>, t: Tables)
    requires ForeignKeys(t)
    ensures forall t' :: Wrote(t, pending, t') ==> ViewOf(t'.entries, map[]) == ViewOf(t.entries, pending)
    ensures pending + map[] == pending
  {
    ViewFlushed(t.entries, pending);
  }

  /** The two statements for one row of a batch. */
  method WriteRow(t: Tables, batch: map<Key, Entry>, k: Key, ghost t0: Tables, ghost done: set<Key>)
    returns (t': Tables)
    requires k in batch && k !in done && Wrote(t0, Restrict(batch, done), t)
    ensures Wrote(t0, Restrict(batch, done + {k}), t')
  {
    WroteOneMore(t0, batch, done, k, t);
    t' := UpsertEntry(UpsertBlob(t, batch[k], false), k, batch[k]);
  }

  /** The statements of a batch, in the map's own order: each row's blob, then the row. */
  method WriteRows(t: Tables, batch: map<Key, Entry>) returns (t': Tables)
    requires ForeignKeys(t)
    ensures Wrote(t, batch, t')
  {
    t' := t;
    var todo := batch.Keys;
    ghost var done: set<Key> := {};
    WroteNone(t, batch);
    while todo != {}
      invariant todo <= batch.Keys && done == batch.Keys - todo
      invariant Wrote(t, Restrict(batch, done), t')
      decreases todo
    {
      var k :| k in todo;
      t' := WriteRow(t', batch, k, t, done);
      todo, done := todo - {k}, done + {k};
    }
    assert done == batch.Keys;
  }

  /** A commit is a flush followed by its transaction. */
  ghost predicate Committed(
    pending: map<Key, Entry>, t: Tables, e: Entry, artifact: Option<Artifact>, quota: Quota,
    replaceName: bool, now: Time, t': Tables)
  {
    exists flushed :: Flushed(pending, t, map[], flushed, true)
      && CommitTx(flushed, e, artifact, quota, replaceName, now) == Ok(t')
  }

  /** A commit that returns nil has flushed and run its transaction; one refused for quota
      has flushed, and its transaction changed nothing. */
  ghost predicate CommitOutcome(
    pending: map<Key, Entry>, t: Tables, e: Entry, artifact: Option<Artifact>, quota: Quota,
    replaceName: bool, now: Time, pending': map<Key, Entry>, t': Tables, err: Option<Error>)
  {
    && (err.None? ==>
          pending' == map[] && Committed(pending, t, e, artifact, quota, replaceName, now, t'))
    && (err.Some? && err.value.QuotaExceeded? ==>
          && Flushed(pending, t, pending', t', true)
          && CommitTx(t', e, artifact, quota, replaceName, now) == Err(err.value))
  }

  ghost predicate Applied(
    pending: map<Key, Entry>, t: Tables, project: string, expectedHead: Option<string>, id: string,
    source: seq<Entry>, sourceFails: bool, now: Time, t': Tables)
  {
    exists flushed :: Flushed(pending, t, map[], flushed, true)
      && ApplyTx(flushed, project, expectedHead, id, source, sourceFails, now) == Ok(t')
  }

  // ---- what a commit's quota means --------------------------------------------------------

  ghost function SumContents(view: View): int {
    if view == map[] then 0
    else
      var k :| k in view;
      view[k].size + SumContents(view - {k})
  }

  function InProject(view: View, project: string): View {
    map k | k in view && k.project == project :: view[k]
  }

  /** The summed size of a project's entries. */
  ghost function SizeOf(view: View, project: string): int {
    SumContents(InProject(view, project))
  }

  lemma {:induction false} SumOfRows(rows: map<Key, Row>, view: View)
    requires view.Keys == rows.Keys && forall k :: k in rows ==> view[k].size == rows[k].size
    ensures SumContents(view) == SumSizes(rows)
    decreases |view|
  {
    if view != map[] {
      var k :| k in view && SumContents(view) == view[k].size + SumContents(view - {k});
      Quotas.SumRemove(rows, k);
      assert (view - {k}).Keys == view.Keys - {k};
      assert |(view - {k}).Keys| < |view.Keys|;
      SumOfRows(rows - {k}, view - {k});
    }
  }

  lemma UsageIsSize(t: Tables, project: string)
    ensures Usage(t, project) == SizeOf(ViewOf(t.entries, map[]), project)
  {
    SumOfRows(OfProject(t.entries, project), InProject(ViewOf(t.entries, map[]), project));
  }

  /** The project's inventory after the commit. */
  function InventoryAfter(
    artifacts: map<ArtifactKey, ArtifactRow>, k: Key, a: Artifact, replaceName: bool): set<ArtifactKey>
  {
    (set x | x in artifacts && x.project == k.project && !(replaceName && x.eco == k.eco && x.name == a.name))
    + {ArtifactKey(k.project, k.eco, a.name, a.version, a.arch)}
  }

  function InventoryOf(artifacts: map<ArtifactKey, ArtifactRow>, project: string): set<ArtifactKey> {
    set x | x in artifacts && x.project == project
  }

  /** What a commit that meets no failure answers: nil if the project's size and inventory after
      it are within the quota, and otherwise the figure before, the limit and the figure
      after. A limit of zero or less is none, and the inventory is not checked by a commit that
      adds none. */
  ghost function Verdict(
    view: View, artifacts: map<ArtifactKey, ArtifactRow>, e: Entry, artifact: Option<Artifact>, quota: Quota,
    replaceName: bool): Option<Error>
  {
    var p := e.key.project;
    var after := SizeOf(view[e.key := e.Payload()], p);
    if 0 < quota.bytes < after then Some(QuotaExceeded(true, SizeOf(view, p), quota.bytes, after))
    else if artifact.None? then None
    else
      var count := |InventoryAfter(artifacts, e.key, artifact.value, replaceName)|;
      if 0 < quota.artifacts < count then
        Some(QuotaExceeded(false, |InventoryOf(artifacts, p)|, quota.artifacts, count))
      else None
  }

  lemma BytesAfter(t: Tables, e: Entry)
    ensures ProjectedBytes(t, e) == SizeOf(ViewOf(t.entries, map[])[e.key := e.Payload()], e.key.project)
  {
    var row := MergeRow(Find(t.entries, e.key), e);
    var entries := t.entries[e.key := row];
    Quotas.OfProjectUpsert(t.entries, e.key, row, e.key.project);
    Quotas.SumUpsert(OfProject(t.entries, e.key.project), e.key, row);
    UsageIsSize(t.(entries := entries), e.key.project);
    ViewUpserted(t.entries, e.key, e);
  }

  lemma InventoryIs(t: Tables, e: Entry, a: Artifact, replaceName: bool)
    ensures InventoryAfter(t.artifacts, e.key, a, replaceName) ==
      (if replaceName
       then ArtifactsOf(t, e.key.project) - ArtifactsNamed(t, e.key.project, e.key.eco, a.name)
       else ArtifactsOf(t, e.key.project))
      + {KeyOfArtifact(e, a)}
  {
  }

  lemma InventoryCount(t: Tables, e: Entry, a: Artifact, replaceName: bool)
    ensures ProjectedArtifacts(t, e, a, replaceName) == |InventoryAfter(t.artifacts, e.key, a, replaceName)|
  {
    var key := KeyOfArtifact(e, a);
    var all := ArtifactsOf(t, e.key.project);
    InventoryIs(t, e, a, replaceName);
    if replaceName {
      Quotas.ReplacedNameCount(all, ArtifactsNamed(t, e.key.project, e.key.eco, a.name), key);
    } else {
      OneMore(all, key);
    }
  }

  lemma OneMore<T>(all: set<T>, x: T)
    ensures |all + {x}| == |all| + if x in all then 0 else 1
  {
    assert x in all ==> all + {x} == all;
  }

  lemma CheckIsVerdict(t: Tables, e: Entry, artifact: Option<Artifact>, quota: Quota, replaceName: bool)
    ensures QuotaCheck(t, e, artifact, quota, replaceName) ==
      Verdict(ViewOf(t.entries, map[]), t.artifacts, e, artifact, quota, replaceName)
  {
    UsageIsSize(t, e.key.project);
    BytesAfter(t, e);
    if artifact.Some? {
      InventoryCount(t, e, artifact.value, replaceName);
      assert InventoryOf(t.artifacts, e.key.project) == ArtifactsOf(t, e.key.project);
    }
  }

  // ---- what still names a blob --------------------------------------------------------------

  lemma ReferencedIsNamed(t: Tables, d: Digest)
    ensures var view := ViewOf(t.entries, map[]);
      Referenced(t, d) <==>
        || (exists k :: k in view && view[k].digest == d)
        || (exists a :: a in t.artifacts && t.artifacts[a].digest == d)
        || (exists s :: s in t.snapshots && t.snapshots[s].manifest == d)
  {
    var view := ViewOf(t.entries, map[]);
    assert forall k :: k in view <==> k in t.entries;
    assert forall k :: k in view ==> view[k].digest == t.entries[k].digest;
  }

  /** Something other than the entry k, and the inventory of its project and ecosystem, names the
      blob. */
  ghost predicate NamedElsewhere(view: View, t: Tables, k: Key, d: Digest) {
    || (exists j :: j in view && j != k && view[j].digest == d)
    || (exists a :: a in t.artifacts && t.artifacts[a].digest == d && !(a.project == k.project && a.eco == k.eco))
    || (exists s :: s in t.snapshots && t.snapshots[s].manifest == d)
  }

  /** Of refs and inventory exactly these rows are gone: refs in k's project and ecosystem that
      target k, and inventory rows there that carry the blob. */
  ghost predicate Unlinked(t: Tables, k: Key, d: Digest, t': Tables) {
    && (forall x :: x in t'.refs <==>
          x in t.refs && !(x.project == k.project && x.eco == k.eco && t.refs[x] == k.key))
    && (forall x :: x in t'.refs ==> t'.refs[x] == t.refs[x])
    && (forall a :: a in t'.artifacts <==>
          a in t.artifacts && !(a.project == k.project && a.eco == k.eco && t.artifacts[a].digest == d))
    && (forall a :: a in t'.artifacts ==> t'.artifacts[a] == t.artifacts[a])
    && t'.heads == t.heads && t'.snapshots == t.snapshots
  }

  lemma EvictUnlinks(t: Tables, k: Key)
    requires k in t.entries
    ensures Unlinked(t, k, t.entries[k].digest, EvictTx(t, k))
  {
  }

  lemma EvictNames(t: Tables, k: Key)
    requires k in t.entries
    ensures var d := t.entries[k].digest;
      Referenced(EvictTx(t, k), d) <==> NamedElsewhere(ViewOf(t.entries, map[]), t, k, d)
  {
    var d, t', view := t.entries[k].digest, EvictTx(t, k), ViewOf(t.entries, map[]);
    assert forall j :: j in t'.entries && t'.entries[j].digest == d <==> j in view && j != k && view[j].digest == d;
    assert forall a :: a in t'.artifacts && t'.artifacts[a].digest == d <==>
      a in t.artifacts && t.artifacts[a].digest == d && !(a.project == k.project && a.eco == k.eco);
  }

  /** Everything but entries and blobs. */
  ghost predicate SameRest(a: Tables, b: Tables) {
    a.refs == b.refs && a.artifacts == b.artifacts && a.heads == b.heads && a.snapshots == b.snapshots
  }

  lemma UnlinkedSame(a: Tables, b: Tables, view: View, k: Key, d: Digest, t': Tables)
    requires SameRest(a, b) && Unlinked(b, k, d, t')
    ensures Unlinked(a, k, d, t') && (NamedElsewhere(view, a, k, d) <==> NamedElsewhere(view, b, k, d))
  {
  }

  // ---- what a deleted or replaced project leaves ------------------------------------------------

  /** Of refs and inventory exactly the project's rows are gone. */
  ghost predicate Cleared(t: Tables, project: string, t': Tables) {
    && (forall x :: x in t'.refs <==> x in t.refs && x.project != project)
    && (forall x :: x in t'.refs ==> t'.refs[x] == t.refs[x])
    && (forall a :: a in t'.artifacts <==> a in t.artifacts && a.project != project)
    && (forall a :: a in t'.artifacts ==> t'.artifacts[a] == t.artifacts[a])
  }

  /** So are its HEAD and its snapshots. */
  ghost predicate Forgot(t: Tables, project: string, t': Tables) {
    && (forall p :: p in t'.heads <==> p in t.heads && p != project)
    && (forall p :: p in t'.heads ==> t'.heads[p] == t.heads[p])
    && (forall s :: s in t'.snapshots <==> s in t.snapshots && t.snapshots[s].project != project)
    && (forall s :: s in t'.snapshots ==> t'.snapshots[s] == t.snapshots[s])
  }

  /** HEAD is the snapshot; other projects' HEADs and all snapshots are as they were. */
  ghost predicate Advanced(t: Tables, project: string, id: string, t': Tables) {
    && project in t'.heads && t'.heads[project] == id
    && (forall p :: p != project ==> (p in t'.heads <==> p in t.heads) && (p in t.heads ==> t'.heads[p] == t.heads[p]))
    && t'.snapshots == t.snapshots
  }

  lemma DropForgets(t: Tables, project: string)
    ensures Cleared(t, project, DropProjectTx(t, project)) && Forgot(t, project, DropProjectTx(t, project))
  {
  }

  lemma ApplyAdvances(
    t: Tables, project: string, expectedHead: Option<string>, id: string, source: seq<Entry>, sourceFails: bool,
    now: Time)
    ensures var r := ApplyTx(t, project, expectedHead, id, source, sourceFails, now);
      r.Ok? ==> Cleared(t, project, r.value) && Advanced(t, project, id, r.value)
  {
    YieldAllIff(WithoutProject(t, project), project, source, now);
  }

  /** The cursor of a walk: each row of the project once. */
  method EnumerateRows(entries: map<Key, Row>, project: string) returns (rows: seq<Entry>)
    ensures IsWalk(rows, entries, project)
  {
    rows := [];
    var todo := OfProject(entries, project).Keys;
    while todo != {}
      invariant todo <= OfProject(entries, project).Keys
      invariant forall i :: 0 <= i < |rows| ==>
        var k := rows[i].key;
        k in entries && k.project == project && k !in todo && rows[i] == entries[k].ToEntry(k)
      invariant forall i, j :: 0 <= i < j < |rows| ==> rows[i].key != rows[j].key
      invariant forall k :: k in entries && k.project == project && k !in todo ==> Yields(rows, k)
      decreases todo
    {
      var k :| k in todo;
      ghost var before := rows;
      rows := rows + [entries[k].ToEntry(k)];
      todo := todo - {k};
      assert rows[|before|].key == k;
      forall j | Yields(before, j) ensures Yields(rows, j) {
        var i :| 0 <= i < |before| && before[i].key == j;
        assert rows[i].key == j;
      }
    }
  }

  datatype Evicted = Evicted(digest: Digest, size: int, stillReferenced: bool)

  /** Rows and blobs are those that were there, and serve what they served. */
  ghost predicate OnlyTouched(t: Tables, t': Tables) {
    && t'.entries.Keys == t.entries.Keys && t'.blobs.Keys == t.blobs.Keys
    && forall k :: k in t.entries ==> t'.entries[k].Payload() == t.entries[k].Payload()
  }

  lemma TouchTxOnly(t: Tables, touch: Touch)
    ensures OnlyTouched(t, TouchTx(t, touch))
  {
  }

  lemma {:induction false} TouchAllOnly(t: Tables, touches: seq<Touch>)
    ensures OnlyTouched(t, TouchAll(t, touches))
  {
    if touches != [] {
      var before := TouchAll(t, touches[..|touches| - 1]);
      TouchAllOnly(t, touches[..|touches| - 1]);
      TouchTxOnly(before, touches[|touches| - 1]);
    }
  }

  lemma OnlyTouchedForeignKeys(t: Tables, t': Tables)
    requires OnlyTouched(t, t') && ForeignKeys(t)
    ensures ForeignKeys(t')
  {
    assert forall k :: k in t.entries ==> t'.entries[k].digest == t.entries[k].Payload().digest;
  }

  /** A touch never changes what a key serves, and never brings a key back. */
  lemma TouchAllKeeps(t: Tables, touches: seq<Touch>, pending: map<Key, Entry>)
    ensures var t' := TouchAll(t, touches);
      && t'.entries.Keys == t.entries.Keys && t'.blobs.Keys == t.blobs.Keys
      && (forall k :: k in t.entries ==> t'.entries[k].Payload() == t.entries[k].Payload())
      && ViewOf(t'.entries, pending) == ViewOf(t.entries, pending)
      && (ForeignKeys(t) ==> ForeignKeys(t'))
  {
    TouchAllOnly(t, touches);
    ViewSame(t.entries, TouchAll(t, touches).entries, pending);
    if ForeignKeys(t) {
      OnlyTouchedForeignKeys(t, TouchAll(t, touches));
    }
  }

  ghost predicate NoneCached(s: Lru.Recency, touches: seq<Touch>) {
    forall i :: 0 <= i < |touches| ==> !Lru.Resident(s, touches[i].key)
  }

  lemma OneMoreGone(s: Lru.Recency, capacity: nat, touches: seq<Touch>, i: nat)
    requires Lru.Distinct(s) && i < |touches| && NoneCached(s, touches[..i])
    ensures NoneCached(Lru.Step(s, capacity, Lru.Drop(touches[i].key)), touches[..i + 1])
  {
    forall j | 0 <= j <= i
      ensures !Lru.Resident(Lru.Without(s, touches[i].key), touches[j].key)
    {
      Lru.WithoutLookup(s, touches[i].key, touches[j].key);
      assert j < i ==> touches[..i][j] == touches[j];
    }
  }

  lemma PublishKeeps(t: Tables, e: Entry, artifact: Option<Artifact>, replaceName: bool, now: Time)
    requires ForeignKeys(t)
    ensures ForeignKeys(Publish(t, e, artifact, replaceName, now))
    ensures ViewOf(Publish(t, e, artifact, replaceName, now).entries, map[]) ==
      ViewOf(t.entries, map[])[e.key := e.Payload()]
  {
    UpsertKeepsForeignKeys(t, e.key, e, true);
    ViewUpserted(t.entries, e.key, e);
  }

  lemma {:induction false} YieldStops(t: Tables, project: string, source: seq<Entry>, now: Time, i: nat)
    requires 0 < i <= |source| && YieldAll(t, project, source[..i], now).Err?
    ensures YieldAll(t, project, source, now) == YieldAll(t, project, source[..i], now)
  {
    if i < |source| {
      assert source[..|source| - 1][..i] == source[..i];
      YieldStops(t, project, source[..|source| - 1], now, i);
    } else {
      assert source[..i] == source;
    }
  }

  lemma AppliedElsewhere(view: View, project: string, added: View)
    requires forall k :: k in added ==> k.project == project
    ensures forall j :: j in view && j.project != project ==>
      var view' := (view - KeysOf(view, project)) + added;
      j in view' && view'[j] == view[j]
  {
  }

  lemma {:induction false} SourceOfProject(project: string, source: seq<Entry>, now: Time)
    ensures forall k :: k in SourceRows(project, source, now) ==> k.project == project
  {
    if source != [] {
      SourceOfProject(project, source[..|source| - 1], now);
    }
  }

  class DB {
    const batchSize: int
    const cache: Lru.EntryCache
    var pending: map<Key, Entry>
    var tables: Tables
    var closed: bool
    var poolsOpen: bool
    var flushErr: bool

    /** The queue and the tables by themselves. */
    ghost predicate Sound()
      reads this
    {
      Queued(pending) && ForeignKeys(tables)
    }

    ghost predicate Valid()
      reads this, cache, cache.ll
    {
      Sound() && cache.Valid() && Agrees(cache.Contents, View())
    }

    /** The plain map the three layers stand for. */
    ghost function View(): View
      reads this
    {
      ViewOf(tables.entries, pending)
    }

    constructor (cacheSize: int, batchSize: int, tables: Tables)
      requires ForeignKeys(tables)
      ensures Valid() && View() == ViewOf(tables.entries, map[])
      ensures pending == map[] && this.tables == tables && !closed && poolsOpen && !flushErr
      ensures fresh(cache) && fresh(cache.Repr)
    {
      this.batchSize := batchSize;
      this.cache := new Lru.EntryCache(cacheSize);
      this.pending, this.tables := map[], tables;
      this.closed, this.poolsOpen, this.flushErr := false, true, false;
    }

    /** The row as the table has it. */
    method SelectEntry(k: Key, readOk: bool) returns (r: Result<Entry>)
      ensures r == if !readOk || !poolsOpen then Err(Io)
                   else if k in tables.entries then Ok(tables.entries[k].ToEntry(k))
                   else Err(NotFound)
    {
      if !readOk || !poolsOpen {
        return Err(Io);
      }
      r := if k in tables.entries then Ok(tables.entries[k].ToEntry(k)) else Err(NotFound);
    }

    /** Pending, then the LRU, then the table; a row from the table is cached. */
    method GetEntry(k: Key, readOk: bool) returns (r: Result<Entry>)
      requires Valid()
      modifies cache, cache.Repr
      ensures Valid() && fresh(cache.Repr - old(cache.Repr))
      ensures r.Ok? ==> k in View() && r.value.key == k && r.value.Payload() == View()[k]
      ensures readOk && poolsOpen ==> (r.Ok? <==> k in View()) && (r.Err? ==> r.error == NotFound)
      ensures k !in View() ==> r.Err?
      ensures k in pending ==> r == Ok(pending[k])
      ensures Lru.Resident(old(cache.Contents), k) ==> r.Ok?
      ensures r.Ok? && k !in pending ==> Caches(cache.Contents, r.value)
      ensures r.Ok? && k !in pending && !Lru.Resident(old(cache.Contents), k) ==>
        r.value == tables.entries[k].ToEntry(k)
    {
      if k in pending {
        return Ok(pending[k]);
      }
      var cached := LookUp(k);
      if cached.Some? {
        return Ok(cached.value);
      }
      r := SelectEntry(k, readOk);
      if r.Ok? {
        CacheRow(r.value);
      }
    }

    method LookUp(k: Key) returns (found: Option<Entry>)
      requires Valid()
      modifies cache`ll, cache`Contents
      ensures Valid() && found == Lru.Lookup(old(cache.Contents), k)
      ensures found.Some? ==>
        && found.value.key == k && k in View() && View()[k] == found.value.Payload()
        && Caches(cache.Contents, found.value)
    {
      AgreesGet(cache.Contents, cache.capacity, k, View());
      found := cache.Get(k);
    }

    /** A row read from the table, on its way out. */
    method CacheRow(e: Entry)
      requires Valid() && e.key in View() && View()[e.key] == e.Payload()
      modifies cache, cache.Repr
      ensures Valid() && fresh(cache.Repr - old(cache.Repr)) && Caches(cache.Contents, e)
    {
      AgreesFill(cache.Contents, cache.capacity, e, View());
      Lru.PutIsFound(cache.Contents, cache.capacity, e);
      cache.Put(e);
    }

    /** Queues a write. A failure of an earlier flush is reported, though the write is
        queued all the same; `wake` asks the background loop to flush. */
    method PutEntry(entry: Entry, now: Time) returns (err: Option<Error>, wake: bool)
      requires Valid()
      modifies this`pending, cache, cache.Repr
      ensures Valid() && fresh(cache.Repr - old(cache.Repr))
      ensures !ValidDigest(entry.digest) ==> err == Some(InvalidDigest) && pending == old(pending) && !wake
      ensures ValidDigest(entry.digest) && closed ==> err == Some(Closed) && pending == old(pending) && !wake
      ensures ValidDigest(entry.digest) && !closed ==>
        && View() == old(View())[entry.key := entry.Payload()]
        && pending == old(pending)[entry.key := Dated(entry, now)]
        && Caches(cache.Contents, Dated(entry, now))
        && err == (if flushErr then Some(Io) else None)
        && wake == (|pending| >= batchSize)
    {
      if !ValidDigest(entry.digest) {
        return Some(InvalidDigest), false;
      }
      var e := Dated(entry, now);
      if closed {
        return Some(Closed), false;
      }
      Enqueue(e);
      wake := |pending| >= batchSize;
      err := if flushErr then Some(Io) else None;
    }

    method Enqueue(e: Entry)
      requires Valid() && ValidDigest(e.digest)
      modifies this`pending, cache, cache.Repr
      ensures Valid() && fresh(cache.Repr - old(cache.Repr))
      ensures View() == old(View())[e.key := e.Payload()]
      ensures pending == old(pending)[e.key := e] && Caches(cache.Contents, e)
    {
      Lru.PutIsFound(cache.Contents, cache.capacity, e);
      AgreesPut(cache.Contents, cache.capacity, e, View());
      ViewPut(tables.entries, pending, e.key, e);
      pending := pending[e.key := e];
      cache.Put(e);
    }

    /** One transaction for the whole batch. */
    method WriteEntries(batch: map<Key, Entry>, ok: bool) returns (written: bool)
      requires ForeignKeys(tables)
      modifies this`tables
      ensures written == (ok && poolsOpen)
      ensures if written then Wrote(old(tables), batch, tables) else tables == old(tables)
    {
      var t := WriteRows(tables, batch);
      written := ok && poolsOpen;
      if written {
        tables := t;
      }
    }

    /** A failed batch goes back, except where a newer write is queued already. */
    method Restore(batch: map<Key, Entry>)
      modifies this`pending
      ensures pending == batch + old(pending)
    {
      ghost var queued := pending;
      var todo := batch.Keys;
      while todo != {}
        invariant todo <= batch.Keys
        invariant pending == Restrict(batch, batch.Keys - todo) + queued
        decreases todo
      {
        var k :| k in todo;
        if k !in pending {
          pending := pending[k := batch[k]];
        }
        todo := todo - {k};
      }
      assert Restrict(batch, batch.Keys - todo) == batch;
    }

    method FlushLocked(ok: bool) returns (err: Option<Error>)
      requires Sound()
      modifies this`pending, this`tables
      ensures Sound() && View() == old(View())
      ensures err == if old(pending) == map[] || (ok && poolsOpen) then None else Some(Io)
      ensures Flushed(old(pending), old(tables), pending, tables, err.None?)
    {
      FlushedView(pending, tables);
      if |pending| == 0 {
        return None;
      }
      var batch := pending;
      pending := map[];
      var written := WriteEntries(batch, ok);
      if written {
        return None;
      }
      Restore(batch);
      err := Some(Io);
    }

    method Flush(ok: bool) returns (err: Option<Error>)
      requires Sound()
      modifies this`pending, this`tables, this`flushErr
      ensures Sound() && View() == old(View())
      ensures err == if old(pending) == map[] || (ok && poolsOpen) then None else Some(Io)
      ensures Flushed(old(pending), old(tables), pending, tables, err.None?)
      ensures flushErr == err.Some?
    {
      err := FlushLocked(ok);
      flushErr := err.Some?;
    }

    /** Under mu: the queued and the cached entry go. */
    method Unqueue(k: Key)
      requires Valid()
      modifies this`pending, cache`ll, cache`items, cache`Contents
      ensures Valid() && pending == old(pending) - {k}
      ensures Agrees(cache.Contents, View() - {k}) && !Lru.Resident(cache.Contents, k)
    {
      Lru.WithoutLookup(cache.Contents, k, k);
      ghost var view, rest := View(), ViewOf(tables.entries, pending - {k});
      AgreesDrop(cache.Contents, cache.capacity, k, view, rest);
      AgreesDrop(cache.Contents, cache.capacity, k, view, rest - {k});
      pending := pending - {k};
      cache.Drop(k);
    }

    /** Drops the queued and the cached entry, then the row. When the DELETE fails, a write
        that was only queued is gone, and the key is what the table last held. */
    method DeleteEntry(k: Key, ok: bool) returns (err: Option<Error>)
      requires Valid()
      modifies this`pending, this`tables, cache`ll, cache`items, cache`Contents
      ensures Valid()
      ensures err == if ok && poolsOpen then None else Some(Io)
      ensures err.None? ==> View() == old(View()) - {k}
      ensures err.Some? ==> View() == ViewOf(old(tables.entries), old(pending) - {k})
      ensures pending == old(pending) - {k} && !Lru.Resident(cache.Contents, k)
      ensures tables == if err.None? then old(tables).(entries := old(tables.entries) - {k}) else old(tables)
    {
      ViewDeleted(tables.entries, pending, k);
      Unqueue(k);
      if !ok || !poolsOpen {
        return Some(Io);
      }
      ViewDeleted(tables.entries, pending, k);
      tables := tables.(entries := tables.entries - {k});
      err := None;
    }

    /** Runs a transaction's outcome: commit it, unless the connection is gone. */
    method Finish(t: Result<Tables>, ok: bool) returns (err: Option<Error>)
      requires Sound() && (t.Ok? ==> ForeignKeys(t.value))
      modifies this`tables
      ensures Sound()
      ensures err == if !ok || !poolsOpen then Some(Io) else if t.Err? then Some(t.error) else None
      ensures tables == if err.None? then t.value else old(tables)
    {
      if !ok || !poolsOpen {
        return Some(Io);
      }
      if t.Err? {
        return Some(t.error);
      }
      tables := t.value;
      err := None;
    }

    method DeleteProjectRows(project: string, flushOk: bool, ok: bool) returns (r: Result<nat>)
      requires Sound()
      modifies this`pending, this`tables, this`flushErr
      ensures Sound()
      ensures r.Ok? ==>
        && View() == old(View()) - KeysOf(old(View()), project)
        && r.value == |KeysOf(old(View()), project)|
        && Cleared(old(tables), project, tables) && Forgot(old(tables), project, tables)
      ensures r.Err? ==> View() == old(View())
      ensures flushOk && ok && poolsOpen ==> r.Ok?
    {
      var err := Flush(flushOk);
      if err.Some? {
        return Err(Io);
      }
      ViewDropped(tables, project);
      DropForgets(tables, project);
      var n := |set k | k in tables.entries && k.project == project|;
      err := Finish(Ok(DropProjectTx(tables, project)), ok);
      if err.Some? {
        return Err(err.value);
      }
      r := Ok(n);
    }

    /** A project-wide delete: flush, one transaction, then the cache. */
    method DeleteProject(project: string, flushOk: bool, ok: bool) returns (r: Result<nat>)
      requires Valid()
      modifies this`pending, this`tables, this`flushErr, cache`ll, cache`items, cache`Contents
      ensures Valid()
      ensures r.Ok? ==>
        && View() == old(View()) - KeysOf(old(View()), project)
        && r.value == |KeysOf(old(View()), project)|
        && Cleared(old(tables), project, tables) && Forgot(old(tables), project, tables)
      ensures r.Err? ==> View() == old(View())
      ensures flushOk && ok && poolsOpen ==> r.Ok?
    {
      ghost var view := View();
      r := DeleteProjectRows(project, flushOk, ok);
      if r.Ok? {
        AgreesDropProject(cache.Contents, cache.capacity, project, view, View());
        cache.DropProject(project);
      }
    }

    /** SELECT COALESCE(SUM(size), 0) FROM entries WHERE project = ? */
    method SelectUsage(project: string) returns (sum: int)
      ensures sum == Usage(tables, project)
    {
      var rows := OfProject(tables.entries, project);
      sum := 0;
      while rows != map[]
        invariant sum + SumSizes(rows) == Usage(tables, project)
        decreases |rows|
      {
        var k :| k in rows;
        Quotas.SumRemove(rows, k);
        assert (rows - {k}).Keys == rows.Keys - {k};
        sum, rows := sum + rows[k].size, rows - {k};
      }
    }

    /** CommitEntry's transaction: the quota checks, then the blob, the entry and the
        inventory row. */
    method CommitStatements(
      e: Entry, artifact: Option<Artifact>, quota: Quota, replaceName: bool, now: Time)
      returns (t: Result<Tables>)
      ensures t == CommitTx(tables, e, artifact, quota, replaceName, now)
    {
      var usage := SelectUsage(e.key.project);
      var oldSize := if e.key in tables.entries then tables.entries[e.key].size else 0;
      var projected := usage - oldSize + e.size;
      if quota.bytes > 0 && projected > quota.bytes {
        return Err(QuotaExceeded(true, usage, quota.bytes, projected));
      }
      if artifact.Some? && quota.artifacts > 0 {
        var a := artifact.value;
        var count := |ArtifactsOf(tables, e.key.project)|;
        var projectedCount := count;
        if KeyOfArtifact(e, a) !in tables.artifacts {
          projectedCount := projectedCount + 1;
        }
        if replaceName {
          var replaced := |ArtifactsNamed(tables, e.key.project, e.key.eco, a.name)|;
          projectedCount := count - replaced + 1;
        }
        if projectedCount > quota.artifacts {
          return Err(QuotaExceeded(false, count, quota.artifacts, projectedCount));
        }
      }
      t := Ok(Publish(tables, e, artifact, replaceName, now));
    }

    method CommitRows(
      e: Entry, artifact: Option<Artifact>, quota: Quota, replaceName: bool, now: Time,
      flushOk: bool, ok: bool)
      returns (err: Option<Error>)
      requires Sound()
      modifies this`pending, this`tables, this`flushErr
      ensures Sound()
      ensures View() == if err.None? then old(View())[e.key := e.Payload()] else old(View())
      ensures CommitOutcome(old(pending), old(tables), e, artifact, quota, replaceName, now, pending, tables, err)
      ensures flushOk && ok && poolsOpen ==>
        err == Verdict(old(View()), old(tables.artifacts), e, artifact, quota, replaceName)
    {
      err := Flush(flushOk);
      if err.Some? {
        return;
      }
      var t := CommitStatements(e, artifact, quota, replaceName, now);
      PublishKeeps(tables, e, artifact, replaceName, now);
      CheckIsVerdict(tables, e, artifact, quota, replaceName);
      ghost var flushed := tables;
      assert Flushed(old(pending), old(tables), map[], flushed, true);
      err := Finish(t, ok);
    }

    /** Publishes an entry and its inventory row in one transaction, quota included. */
    method CommitEntry(
      entry: Entry, artifact: Option<Artifact>, quota: Quota, replaceName: bool, now: Time,
      flushOk: bool, ok: bool)
      returns (err: Option<Error>)
      requires Valid()
      modifies this`pending, this`tables, this`flushErr, cache, cache.Repr
      ensures Valid() && fresh(cache.Repr - old(cache.Repr))
      ensures !ValidDigest(entry.digest) ==> err == Some(InvalidDigest) && tables == old(tables)
      ensures View() == if err.None? then old(View())[entry.key := entry.Payload()] else old(View())
      ensures ValidDigest(entry.digest) ==> CommitOutcome(
        old(pending), old(tables), Dated(entry, now), artifact, quota, replaceName, now, pending, tables, err)
      ensures err.None? ==> Caches(cache.Contents, Dated(entry, now))
      ensures ValidDigest(entry.digest) && flushOk && ok && poolsOpen ==>
        err == Verdict(old(View()), old(tables.artifacts), entry, artifact, quota, replaceName)
    {
      if !ValidDigest(entry.digest) {
        return Some(InvalidDigest);
      }
      err := CommitDated(Dated(entry, now), artifact, quota, replaceName, now, flushOk, ok);
    }

    method CommitDated(
      e: Entry, artifact: Option<Artifact>, quota: Quota, replaceName: bool, now: Time,
      flushOk: bool, ok: bool)
      returns (err: Option<Error>)
      requires Valid()
      modifies this`pending, this`tables, this`flushErr, cache, cache.Repr
      ensures Valid() && fresh(cache.Repr - old(cache.Repr))
      ensures View() == if err.None? then old(View())[e.key := e.Payload()] else old(View())
      ensures CommitOutcome(
        old(pending), old(tables), e, artifact, quota, replaceName, now, pending, tables, err)
      ensures err.None? ==> Caches(cache.Contents, e)
      ensures flushOk && ok && poolsOpen ==>
        err == Verdict(old(View()), old(tables.artifacts), e, artifact, quota, replaceName)
    {
      ghost var view := View();
      err := CommitRows(e, artifact, quota, replaceName, now, flushOk, ok);
      ghost var queued, stored := pending, tables;
      assert CommitOutcome(old(pending), old(tables), e, artifact, quota, replaceName, now, queued, stored, err);
      if err.None? {
        CacheCommitted(e, view);
      }
      assert pending == queued && tables == stored;
    }

    /** After the transaction: the committed entry is cached. */
    method CacheCommitted(e: Entry, ghost before: View)
      requires Sound() && cache.Valid() && Agrees(cache.Contents, before)
      requires View() == before[e.key := e.Payload()]
      modifies cache, cache.Repr
      ensures Valid() && fresh(cache.Repr - old(cache.Repr)) && unchanged(this)
      ensures Caches(cache.Contents, e)
    {
      AgreesPut(cache.Contents, cache.capacity, e, before);
      Lru.PutIsFound(cache.Contents, cache.capacity, e);
      cache.Put(e);
    }

    /** EvictEntry's transaction. */
    method EvictStatements(k: Key, ok: bool) returns (r: Result<Evicted>)
      requires Sound() && pending == map[]
      modifies this`tables
      ensures Sound()
      ensures r.Ok? ==>
        && k in old(View()) && View() == old(View()) - {k}
        && r.value.digest == old(View())[k].digest && r.value.size == old(View())[k].size
        && Unlinked(old(tables), k, r.value.digest, tables)
        && (r.value.stillReferenced <==> NamedElsewhere(old(View()), old(tables), k, r.value.digest))
      ensures r.Err? ==> tables == old(tables)
      ensures ok && poolsOpen ==> (r.Ok? <==> k in old(View())) && (r.Err? ==> r.error == NotFound)
    {
      if k !in tables.entries {
        return Err(if ok && poolsOpen then NotFound else Io);
      }
      var row := tables.entries[k];
      var t := EvictTx(tables, k);
      EvictUnlinks(tables, k);
      EvictNames(tables, k);
      ViewDeleted(tables.entries, pending, k);
      assert pending - {k} == pending;
      var err := Finish(Ok(t), ok);
      if err.Some? {
        return Err(err.value);
      }
      r := Ok(Evicted(row.digest, row.size, Referenced(t, row.digest)));
    }

    method EvictRow(k: Key, flushOk: bool, ok: bool) returns (r: Result<Evicted>)
      requires Sound()
      modifies this`pending, this`tables, this`flushErr
      ensures Sound()
      ensures r.Ok? ==>
        && k in old(View()) && View() == old(View()) - {k} && pending == map[]
        && r.value.digest == old(View())[k].digest && r.value.size == old(View())[k].size
        && Unlinked(old(tables), k, r.value.digest, tables)
        && (r.value.stillReferenced <==> NamedElsewhere(old(View()), old(tables), k, r.value.digest))
      ensures r.Err? ==> View() == old(View())
      ensures flushOk && ok && poolsOpen ==>
        (r.Ok? <==> k in old(View())) && (r.Err? ==> r.error == NotFound)
    {
      var err := Flush(flushOk);
      if err.Some? {
        return Err(Io);
      }
      ghost var flushed := tables;
      r := EvictStatements(k, ok);
      if r.Ok? {
        UnlinkedSame(old(tables), flushed, old(View()), k, r.value.digest, tables);
      }
    }

    /** Removes an entry with its refs and inventory rows, and says whether the content is
        still live elsewhere. */
    method EvictEntry(k: Key, flushOk: bool, ok: bool) returns (r: Result<Evicted>)
      requires Valid()
      modifies this`pending, this`tables, this`flushErr, cache`ll, cache`items, cache`Contents
      ensures Valid()
      ensures r.Ok? ==>
        && k in old(View()) && View() == old(View()) - {k} && pending == map[]
        && r.value.digest == old(View())[k].digest && r.value.size == old(View())[k].size
        && Unlinked(old(tables), k, r.value.digest, tables)
        && (r.value.stillReferenced <==> NamedElsewhere(old(View()), old(tables), k, r.value.digest))
      ensures r.Err? ==> View() == old(View())
      ensures flushOk && ok && poolsOpen ==>
        (r.Ok? <==> k in old(View())) && (r.Err? ==> r.error == NotFound)
    {
      ghost var view := View();
      r := EvictRow(k, flushOk, ok);
      if r.Ok? {
        AgreesDrop(cache.Contents, cache.capacity, k, view, View());
        cache.Drop(k);
      }
    }

    method TouchRows(touches: seq<Touch>, ok: bool) returns (err: Option<Error>)
      requires Sound()
      modifies this`tables
      ensures Sound() && View() == old(View())
      ensures err == if ok && poolsOpen then None else Some(Io)
      ensures tables == if err.None? then TouchAll(old(tables), touches) else old(tables)
    {
      var t := tables;
      for i := 0 to |touches|
        invariant t == TouchAll(tables, touches[..i]) && Sound() && tables == old(tables)
      {
        assert touches[..i + 1][..i] == touches[..i];
        t := TouchTx(t, touches[i]);
      }
      assert touches[..|touches|] == touches;
      TouchAllKeeps(tables, touches, pending);
      err := Finish(Ok(t), ok);
    }

    method DropCached(k: Key)
      requires Valid()
      modifies cache`ll, cache`items, cache`Contents
      ensures Valid()
      ensures cache.Contents == Lru.Step(old(cache.Contents), cache.capacity, Lru.Drop(k))
    {
      AgreesDrop(cache.Contents, cache.capacity, k, View(), View());
      cache.Drop(k);
    }

    method DropTouched(touches: seq<Touch>)
      requires Valid()
      modifies cache`ll, cache`items, cache`Contents
      ensures Valid() && NoneCached(cache.Contents, touches)
    {
      for i := 0 to |touches|
        invariant Valid() && NoneCached(cache.Contents, touches[..i])
      {
        OneMoreGone(cache.Contents, cache.capacity, touches, i);
        DropCached(touches[i].key);
      }
      assert touches[..|touches|] == touches;
    }

    /** Folds read activity into the rows that still exist, then drops the cached copies. */
    method TouchEntries(touches: seq<Touch>, ok: bool) returns (err: Option<Error>)
      requires Valid()
      modifies this`tables, cache`ll, cache`items, cache`Contents
      ensures Valid() && View() == old(View())
      ensures err == if touches == [] || (ok && poolsOpen) then None else Some(Io)
      ensures tables == if err.None? then TouchAll(old(tables), touches) else old(tables)
      ensures err.None? ==> CatalogLaws.Touched(old(tables), touches, tables) && NoneCached(cache.Contents, touches)
    {
      CatalogLaws.TouchesAdd(tables, touches);
      if |touches| == 0 {
        assert touches == [];
        return None;
      }
      err := TouchRows(touches, ok);
      if err.None? {
        DropTouched(touches);
      }
    }

    /** One project's rows, after a flush, each exactly once. */
    method WalkEntries(project: string, flushOk: bool, readOk: bool) returns (r: Result<seq<Entry>>)
      requires Sound()
      modifies this`pending, this`tables, this`flushErr
      ensures Sound() && View() == old(View())
      ensures r.Ok? ==> pending == map[] && IsWalk(r.value, tables.entries, project)
      ensures flushOk && readOk && poolsOpen ==> r.Ok?
    {
      var err := Flush(flushOk);
      if err.Some? || !readOk || !poolsOpen {
        return Err(Io);
      }
      var rows := EnumerateRows(tables.entries, project);
      r := Ok(rows);
    }

    /** The statements of a snapshot: clear the project, insert what the source yields until
        it stops or an insert fails, advance HEAD. */
    method ApplyStatements(
      project: string, expectedHead: Option<string>, id: string,
      source: seq<Entry>, sourceFails: bool, now: Time)
      returns (t: Result<Tables>)
      ensures t == ApplyTx(tables, project, expectedHead, id, source, sourceFails, now)
    {
      if expectedHead.Some? && HeadOf(tables, project) != expectedHead.value {
        return Err(NonFastForward);
      }
      var base := WithoutProject(tables, project);
      t := Ok(base);
      for i := 0 to |source|
        invariant t.Ok? && t == YieldAll(base, project, source[..i], now)
      {
        assert source[..i + 1][..i] == source[..i];
        t := YieldTx(t.value, project, source[i], now);
        if t.Err? {
          YieldStops(base, project, source, now, i + 1);
          return;
        }
      }
      assert source[..|source|] == source;
      if sourceFails {
        return Err(Io);
      }
      t := Ok(t.value.(heads := t.value.heads[project := id]));
    }

    method ApplyRows(
      project: string, expectedHead: Option<string>, id: string,
      source: seq<Entry>, sourceFails: bool, now: Time, flushOk: bool, ok: bool)
      returns (err: Option<Error>)
      requires Sound()
      modifies this`pending, this`tables, this`flushErr
      ensures Sound()
      ensures err.None? ==>
        && pending == map[] && poolsOpen
        && View() == (old(View()) - KeysOf(old(View()), project)) + Payloads(SourceRows(project, source, now))
        && Applied(old(pending), old(tables), project, expectedHead, id, source, sourceFails, now, tables)
        && Cleared(old(tables), project, tables) && Advanced(old(tables), project, id, tables)
      ensures err.Some? ==>
        && View() == old(View())
        && tables == old(tables).(entries := tables.entries, blobs := tables.blobs)
      ensures err.Some? && flushOk && ok && poolsOpen ==>
        ApplyTx(tables, project, expectedHead, id, source, sourceFails, now).Err?
    {
      err := Flush(flushOk);
      if err.Some? {
        return;
      }
      var t := ApplyStatements(project, expectedHead, id, source, sourceFails, now);
      ApplyKeepsForeignKeys(tables, project, expectedHead, id, source, sourceFails, now);
      ApplyAdvances(tables, project, expectedHead, id, source, sourceFails, now);
      ghost var flushed := tables;
      assert Flushed(old(pending), old(tables), map[], flushed, true);
      ViewReplaced(tables.entries, WithoutProject(tables, project).entries, SourceRows(project, source, now), project);
      err := Finish(t, ok);
    }

    /** Replaces a project's live entries by a snapshot's, all or nothing. */
    method ApplySnapshot(
      project: string, expectedHead: Option<string>, id: string,
      source: seq<Entry>, sourceFails: bool, now: Time, flushOk: bool, ok: bool)
      returns (err: Option<Error>)
      requires Valid()
      modifies this`pending, this`tables, this`flushErr, cache`ll, cache`items, cache`Contents
      ensures Valid()
      ensures project == "" || id == "" ==> err == Some(InvalidSnapshot) && tables == old(tables)
      ensures err.None? ==>
        && pending == map[] && poolsOpen
        && View() == (old(View()) - KeysOf(old(View()), project)) + Payloads(SourceRows(project, source, now))
        && Applied(old(pending), old(tables), project, expectedHead, id, source, sourceFails, now, tables)
        && Cleared(old(tables), project, tables) && Advanced(old(tables), project, id, tables)
      ensures err.Some? ==>
        && View() == old(View())
        && tables == old(tables).(entries := tables.entries, blobs := tables.blobs)
      ensures err.Some? && flushOk && ok && poolsOpen && project != "" && id != "" ==>
        ApplyTx(tables, project, expectedHead, id, source, sourceFails, now).Err?
    {
      if project == "" || id == "" {
        return Some(InvalidSnapshot);
      }
      ghost var view := View();
      err := ApplyRows(project, expectedHead, id, source, sourceFails, now, flushOk, ok);
      if err.None? {
        CacheApplied(project, source, now, view);
      }
    }

    /** After the transaction: nothing of the project is cached. */
    method CacheApplied(project: string, ghost source: seq<Entry>, ghost now: Time, ghost before: View)
      requires Sound() && cache.Valid() && Agrees(cache.Contents, before)
      requires View() == (before - KeysOf(before, project)) + Payloads(SourceRows(project, source, now))
      modifies cache`ll, cache`items, cache`Contents
      ensures Valid() && unchanged(this)
    {
      SourceOfProject(project, source, now);
      AppliedElsewhere(before, project, Payloads(SourceRows(project, source, now)));
      AgreesDropProject(cache.Contents, cache.capacity, project, before, View());
      cache.DropProject(project);
    }

    /** Flushes, then answers from the tables: sees every queued write as a reference. */
    method IsBlobReferenced(d: Digest, flushOk: bool, readOk: bool) returns (r: Result<bool>)
      requires Sound()
      modifies this`pending, this`tables, this`flushErr
      ensures Sound() && View() == old(View())
      ensures r.Ok? ==> pending == map[]
      ensures r.Ok? ==>
        (r.value <==>
          || (exists k :: k in old(View()) && old(View())[k].digest == d)
          || (exists a :: a in old(tables.artifacts) && old(tables.artifacts)[a].digest == d)
          || (exists s :: s in old(tables.snapshots) && old(tables.snapshots)[s].manifest == d))
      ensures flushOk && readOk && poolsOpen ==> r.Ok?
    {
      var err := Flush(flushOk);
      if err.Some? || !readOk || !poolsOpen {
        return Err(Io);
      }
      ReferencedIsNamed(tables, d);
      r := Ok(Referenced(tables, d));
    }

    /** The foreign key refuses to let go of a blob an entry still names. */
    method DeleteBlobRecord(d: Digest, ok: bool) returns (err: Option<Error>)
      requires Sound()
      modifies this`tables
      ensures Sound() && View() == old(View())
      ensures err.None? <==> ok && poolsOpen && forall k :: k in tables.entries ==> tables.entries[k].digest != d
      ensures tables == if err.None? then old(tables).(blobs := old(tables.blobs) - {d}) else old(tables)
    {
      if !ok || !poolsOpen || exists k :: k in tables.entries && tables.entries[k].digest == d {
        return Some(Io);
      }
      tables := tables.(blobs := tables.blobs - {d});
      err := None;
    }

    method Close(flushOk: bool) returns (err: Option<Error>)
      requires Sound()
      modifies this`pending, this`tables, this`closed, this`poolsOpen
      ensures Sound() && View() == old(View()) && closed
      ensures old(closed) ==>
        err.None? && pending == old(pending) && tables == old(tables) && poolsOpen == old(poolsOpen)
      ensures !old(closed) ==> !poolsOpen
      ensures !old(closed) ==> err == if old(pending) == map[] || (flushOk && old(poolsOpen)) then None else Some(Io)
      ensures !old(closed) && err.None? ==> pending == map[] && ViewOf(tables.entries, map[]) == old(View())
    {
      if closed {
        return None;
      }
      closed := true;
      err := FlushLocked(flushOk);
      poolsOpen := false;
    }
  }
}
