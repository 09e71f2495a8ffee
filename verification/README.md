# pkgcache: what its storage core promises, proved

pkgcache is a caching proxy for package registries, written in Go. This project models the parts
of it that keep state and proves what they promise:

- **The catalog's write-behind store** (`Flusher`, `FlusherReads`, `FlusherRaces`, `CatalogDb`,
  `CatalogRuns`, `Catalog`, `CatalogLaws`, `Quotas`, `Snapshots`, `Lru`). An entry may be queued, in
  a batch that is being written, cached, or in a table. `Flusher` is the protocol as a step machine: any number of calls
  run at once, a step is what a call does under one hold of `mu` or in one transaction, `flushMu`
  is `holder`, and every write is numbered in a log that no step reads. `CatalogDb` is the same
  store as a class whose methods run one at a time, proved to refine one plain map, and
  `CatalogRuns` opens it, uses it and rolls it back.
- **The traffic series** (`Folds`, `Series`, `SeriesAges`): five-minute rows fold into hours and days.
- **The blob store** (`BlobDisk`, `BlobWriter`, `BlobCommit`, `BlobGc`): writers that commit
  through link and fsync with power losses anywhere, and publication against online deletion. The
  catalog in `BlobGc` is the `Flusher` machine itself.
- **The rate limiter** (`RateLimit`, `RateFloor`), over exact arithmetic.
- **The uv.lock rewriting** (`Sed`, `UvScripts`, `UvFields`, `UvPasses`, `UvHosts`, `UvLock`,
  `UvLent`, `RunFlags`):
  the sed arguments are built as text, read back by a model of sed's parser and run by a model of
  its matcher.
- **Prefix queries** (`Glob`) and **schema migration** (`Schema`).

Tables are maps, a transaction is one step that happens or does not, and the single writer
connection makes transactions follow one another. Clocks, the outcome of every system call and
transaction, and the order in which a Go map is ranged over are parameters or arbitrary choices.
SHA-256 is any function from bytes to digests.

## Hypotheses and what fails without them

Each of these is a hypothesis of a theorem, shown to be needed by a run that goes wrong without
it or by an "if and only if".

- `GetEntry` reads the table outside `mu` and fills the cache afterwards. A write of the key in
  that gap leaves a stale row cached (`StaleFill`), so does a write that was in flight when the row
  was read (`FillUnderFlight`), and a read between the drop and the DELETE of a `DeleteEntry` makes
  the key answer after the delete has returned (`DeletedYetAnswered`).
- `CommitEntry` holds no lock from its flush to its transaction: a write queued there, or a DELETE
  that is outstanding when the transaction lands, leaves cache and table apart (`CommitRace`,
  `CommitUnderDelete`). Nor does it from its transaction to its cache step: so does a write there
  (`CommitOvertaken`), a delete (`DeleteInCommitGap`), an eviction or the deletion of the project
  (`RemovalInCommitGap`).
- `CalmRun` excludes these steps for one key and constrains no other step and no other key; under
  it the layered read answers the plain map's content if and only if no other content of the key is
  in flight that the cache no longer has (`LayeredReadAgrees`, `InFlightUnseen`). In every run the
  cache has what waits, unless since its PutEntry the LRU let the key go, or an eviction, a
  project's deletion or a snapshot dropped it (`WaitingIsCached`).
- A `GetEntry` among other steps returns what the plain map held of the key at some moment of the
  call (`GetAnswersHeld`), provided that at its look in the cache no transaction on the key still
  owes its cache step (`EvictedYetAnswered`) and no row in flight is lost from the cache, and that
  before its table read none takes the row from under a newer write that is still queued or in
  flight (`RemovedBeneath`).
- `Close` of a store that is closed already returns nil without a flush, also while the `Close` that
  closed it is still at work or after its flush has failed (`ClosedTwice`). The store is drained
  once the `Close` that closed it has itself returned nil (`CloseDrains`, `LaterCloseDrains`).
- `BlobGc`: an eviction must check the blob's age again in its `DeleteIf` callback, or every link
  must be made inside `WithBlob` (`NoDanglingIff`). The garbage collector's callback checks it; the
  callbacks of eviction (go/internal/maintenance/service.go:225-231) and manual removal
  (go/internal/maintenance/remove.go:116-122) do not, and go/internal/engine/document.go:289 and
  :417 link outside `WithBlob`. `YoungBlobCollected` is the run: the last entry of a blob is
  evicted, the same bytes are committed again, the eviction deletes them, and the new entry
  dangles.
- `BlobCommit`: a commit that finds its content already there syncs nothing, so what it reports as
  stored is durable if and only if, since the name was last made, a writer has synced the directory
  after linking a blob in it, or a crash has come and gone (`ExistingCommitSurvivesIff`). After
  another writer's failed sync it is not (`ExistingCommitLost`).
- `Series`: SQL's `bucket / span * span` rounds toward zero where `Bucket` floors, so a fold moves
  a misaligned row from before 1970 into the next span (`FoldConservesIff`).
- `RateLimit`: `RateBound` supposes that the key's limits stay as they are (`LimitsRaised`) and that
  its bucket is not pruned (`VictimStartsAfresh`). Dropping stale buckets changes no answer if and
  only if ten minutes and a tick refill the burst (`StalePruneIsInvisibleIff`), and then the bound
  holds through such prunes too (`RateBoundThroughPrunes`), under a clock that does not go back
  (`BackwardClock`). `BurstIsGranted` supposes steady limits, an unpruned bucket and such a clock;
  `AdmittedIffWithin` decides each request on any clock.
- `RateLimit`: `prune` takes the empty key for "nothing chosen yet", so a full table that holds it
  may lose a bucket that is not the oldest (`VictimIsOldestIff`). The one caller,
  go/internal/app/dataplane.go:335-342, never passes the empty key: its identities all hold a NUL,
  and for them the victim is always an oldest one (`IdentitiesLoseOldest`).
- `Glob`: a NUL in the prefix hides the rest of the pattern, star included (`LiteralIff`).
- `Quotas`: `CommitEntry` accepts a negative size, and evicting such an entry can put a project
  over a quota it met (`EvictionNeedsSizes`).
- `UvLock`: a cache that is itself on one of the hosts whose files are lent does not get every file
  back. Which address comes back is decided exactly, for every address of the cache
  (`UvHosts.FieldExactIff`, `HandBackIsExactIff`): none on a host listed before the cache's own
  (`EarlierIsLost`, and `LentTwice` for one file), and none at all if the cache's address holds
  `source = `.
- `RunFlags`: the split falls between a continued line end's backslash and its newline if and only
  if the text starts with flags of which the last is written right up to that backslash
  (`SplitsContinuationIff`); the flags after it then become part of the command, which a blank
  before the backslash would have prevented (`ContinuationCosts`).

Assumed, and not shown to be needed: the cache's address is free of `#`, `&`, `\`, quotes and
newlines, which the shell or sed would read as more than themselves (`PlainForSed`).

Where comment and code differ, the model follows the code. The comment on `GetEntry`
(go/internal/catalog/sqlite.go:281-282) puts the LRU before the queue; the code looks in the queue
first. A `DeleteEntry` whose DELETE fails has already forgotten a queued write of the key, and
`PutEntry` reports an earlier flush's failure although it has queued the write.

## Model

| member | source | states |
|---|---|---|
| Flusher.StepKeeps | go/internal/catalog/batch.go:49-93 | every step of every call keeps the invariant: rows carry the write they came from, a newer write is never under an older one, no unsuperseded write is lost, a batch exists only under flushMu |
| Flusher.FlushBarrier | go/internal/catalog/batch.go:49-93 | when Flush (or a call that starts with it) has returned nil, every PutEntry that returned before it began is in the table or was overtaken by a later operation on its key, in every interleaving, also when another flush had taken its batch |
| Flusher.DeleteIsFinal | go/internal/catalog/sqlite.go:499-569 | after a successful DeleteEntry or EvictEntry no flush, retry or restore brings the key back to queue, batch or table unless something wrote it after the call began |
| Flusher.CloseDrains | go/internal/catalog/sqlite.go:1520-1540 | once the Close that closed the store has returned nil, nothing is queued or in flight and every queued write has reached the table or was overtaken |
| Flusher.LaterCloseDrains | go/internal/catalog/sqlite.go:1521-1526 | a Close that found the store closed returns nil in any case; another Close closed it before, and if that one has returned nil the store is drained |
| Flusher.FlushInvisible | go/internal/catalog/batch.go:67-93 | detaching, committing and restoring a batch leave the map "table under batch under queue" as it is |
| Flusher.RestoreLosesNothing | go/internal/catalog/batch.go:80-91 | a failed batch loses no row: each is queued again, or a strictly newer write of its key is |
| FlusherReads.CalmRunCoherent | go/internal/catalog/sqlite.go:283-351 | in runs in which no step at the key is one of the named races, whatever happens at other keys, the cached row of the key is the current one except where a cache step is outstanding |
| FlusherReads.PlainStep | go/internal/catalog/batch.go:67-93 | every step of every call, races included, moves queue over batch over table as one plain map moves: flushing, landing and restoring change nothing, and a transaction under a waiting write comes before it |
| FlusherReads.WaitingIsCached | go/internal/catalog/sqlite.go:334-344 | in every run, races or not, a write that is queued or in flight is in the cache, unless since the PutEntry of its key the LRU let the key go, or an eviction, the deletion of its project or a snapshot dropped it |
| FlusherReads.LayeredReadAgrees | go/internal/catalog/sqlite.go:283-317 | in runs without those races at the key, the read through queue, cache and table answers the digest, size and media type that folding the steps over that plain map gives, or not-found where it gives none, if and only if no other content of the key is in flight and out of the cache, forgotten since its PutEntry; and where none is, it answers the plain map's very row |
| FlusherReads.GetAnswersHeld | go/internal/catalog/sqlite.go:283-317 | the row, or nothing, that a GetEntry among other steps returns is what the plain map held of the key at some moment of the call, unless a row in flight had been forgotten since its PutEntry when the call looked |
| FlusherRaces.StaleFill | go/internal/catalog/sqlite.go:293-316 | a run after which the cache holds a row older than the one stored |
| FlusherRaces.CommitRace | go/internal/catalog/sqlite.go:362-493 | a run after which cache and table hold different content for a key |
| FlusherRaces.CommitUnderDelete | go/internal/catalog/sqlite.go:362-493 | a run in which a delete that was under way before a commit's transaction takes its row, and the commit caches it |
| FlusherRaces.DeleteInCommitGap | go/internal/catalog/sqlite.go:362-493 | a run in which a key answers after a delete that ran between a commit's transaction and its cache step |
| FlusherRaces.RemovalInCommitGap | go/internal/catalog/sqlite.go:362-493 | the same for an eviction and for the deletion of the project |
| FlusherRaces.ClosedTwice | go/internal/catalog/sqlite.go:1521-1526 | runs in which a second Close returns nil with a write still queued: while the first is at work, and after its flush has failed |
| FlusherRaces.FillUnderFlight | go/internal/catalog/sqlite.go:293-316 | a run in which a read caches the table's row for good while a newer one is in flight |
| FlusherRaces.CommitOvertaken | go/internal/catalog/sqlite.go:362-493 | a run in which a write queued between a commit's transaction and its cache step is hidden by the committed entry |
| FlusherRaces.EvictedYetAnswered | go/internal/catalog/sqlite.go:517-569 | a run in which a read that begins after an eviction's transaction returns the evicted row, held at no moment of the read |
| FlusherRaces.RemovedBeneath | go/internal/catalog/sqlite.go:517-569 | a run in which a read returns not-found though the plain map held a row throughout |
| FlusherRaces.InFlightUnseen | go/internal/catalog/sqlite.go:283-305 | a run in which a write that PutEntry accepted is not found |
| FlusherRaces.DeletedYetAnswered | go/internal/catalog/sqlite.go:499-513 | a run in which a key answers after its successful delete |
| CatalogDb.DB.constructor | go/internal/catalog/sqlite.go:65-135 | an opened store stands for what its tables hold |
| CatalogDb.DB.GetEntry | go/internal/catalog/sqlite.go:283-317 | answers exactly the plain map's digest, size and media type, and not-found exactly when it has no entry; what is queued or cached is answered with no table at all, and what comes from the table is cached, column by column as read |
| CatalogDb.DB.PutEntry | go/internal/catalog/sqlite.go:321-351 | sets the key in the plain map and caches the entry, or changes nothing for a bad digest or a closed store; reports an earlier flush failure though the write is queued |
| CatalogDb.WriteRows | go/internal/catalog/batch.go:95-139 | whatever the order of the map, a batch's statements leave each row merged and no foreign key broken; a blob that was recorded keeps its size and first time, a new one has those of an entry of the batch, and its last access is the latest of all |
| CatalogLaws.MergedRows | go/internal/catalog/batch.go:109-116 | a batch writes each queued entry over its row, adding its hits and keeping the later access, and no other row changes |
| CatalogDb.DB.WriteEntries | go/internal/catalog/batch.go:95-139 | a batch is written whole or not at all |
| CatalogDb.DB.Restore | go/internal/catalog/batch.go:80-91 | the failed batch goes back under what has been queued since |
| CatalogDb.DB.FlushLocked | go/internal/catalog/batch.go:67-93 | the plain map does not move, whether the transaction commits or fails |
| CatalogDb.DB.Flush | go/internal/catalog/batch.go:49-65 | the same, and the failure is remembered for the next PutEntry |
| CatalogDb.DB.DeleteEntry | go/internal/catalog/sqlite.go:499-513 | removes exactly this key, from the cache too; when its DELETE fails, the key is what the table last held |
| CatalogDb.DB.EvictEntry | go/internal/catalog/sqlite.go:517-569 | removes exactly this key, the refs of its project and ecosystem that target it and the inventory rows there that carry its digest, and no other ref or inventory row; says yes to still referenced if and only if, before the call, another entry, an inventory row elsewhere or a snapshot named the digest; not-found exactly when there is no entry |
| CatalogDb.EvictNames | go/internal/catalog/sqlite.go:534-561 | what an eviction's transaction asks after its deletes is whether anything but the key itself and its own ecosystem's inventory named the digest before them |
| CatalogDb.DB.DeleteProject | go/internal/catalog/sqlite.go:575-607 | removes exactly the project's keys, refs, inventory rows, HEAD and snapshots, and returns how many keys they were |
| CatalogDb.DB.SelectUsage | go/internal/catalog/sqlite.go:373-384 | the SUM a commit reads is the project's summed entry size |
| CatalogDb.DB.CommitEntry | go/internal/catalog/sqlite.go:356-495 | with a valid digest and every system call through, it returns nil if and only if the project's summed size and its count of inventory rows after the commit are within the quota, and otherwise the figure before, the limit and the figure after; success sets exactly this key and caches it, and any failure leaves the plain map alone |
| CatalogDb.CheckIsVerdict | go/internal/catalog/sqlite.go:386-436 | the two checks refuse exactly when the plain map's sum, or the set of the project's inventory rows, would be over its limit after the commit, with those figures in the error |
| CatalogLaws.CommitLeaves | go/internal/catalog/sqlite.go:432-485 | column by column what a commit leaves: the entry over its row, hits added and the later access kept; the blob with the new size and its first time; the inventory row in place of the same or, asked to, of all of the same name; every other row as it was |
| CatalogDb.DB.TouchEntries | go/internal/catalog/batch.go:142-186 | adds the touches' hits to the rows that exist and takes each row's and each blob's last access to the latest of its own and theirs; changes nothing else, brings no key back and leaves none of the touched keys cached |
| CatalogLaws.TouchesAdd | go/internal/catalog/batch.go:149-173 | of a whole batch of touches: hits add up, last accesses become the latest, no digest touches no blob, and every other column and table stays |
| CatalogDb.TouchAllKeeps | go/internal/catalog/batch.go:149-173 | a batch of touches leaves every key, digest, size, media type and foreign key |
| CatalogDb.DB.WalkEntries | go/internal/catalog/sqlite.go:663-721 | yields the project's entries, queued ones included, each exactly once |
| CatalogDb.DB.ApplySnapshot | go/internal/catalog/sqlite.go:726-889 | on success the project's part of the plain map is the source's, its refs and inventory are cleared, HEAD is the snapshot and all else is untouched; on failure nothing moves, and with every system call through it fails only if the transaction's own checks do |
| CatalogDb.DB.IsBlobReferenced | go/internal/catalog/sqlite.go:1253-1271 | sees every queued write: yes if and only if some entry of the plain map has the digest, or some inventory row, or some snapshot has it as its manifest |
| CatalogDb.DB.DeleteBlobRecord | go/internal/catalog/sqlite.go:1273-1280 | succeeds only when no entry names the blob |
| CatalogDb.DB.Close | go/internal/catalog/sqlite.go:1520-1540 | flushes before the pools close, keeps the plain map and does nothing a second time; it returns nil if and only if nothing was queued or the flush went through |
| CatalogRuns.CheckpointAndRollBack | go/internal/catalog/sqlite.go:663-889 | on the class: walk a project, make any calls, apply what was walked; if that is accepted every key of the project is as at the walk |
| CatalogRuns.RollBack | go/internal/catalog/sqlite.go:763-889 | an accepted rollback moves no other project; with every system call through it is refused only for a HEAD that has moved or an entry no snapshot can carry or whose blob is gone, and a refusal changes no answer |
| CatalogRuns.ReadAfterRollBack | go/internal/catalog/sqlite.go:283-317 | and GetEntry then answers every key of the project as at the checkpoint, not-found included |
| CatalogRuns.OpenAndRollBack | go/internal/catalog/sqlite.go:65-135 | from opening a store: after any calls and a rollback to where it started, a read answers what the tables held when opened |
| Quotas.ProjectedBytesExact | go/internal/catalog/sqlite.go:373-397 | the projected byte figure is what the project sums to after the commit, and no other project's sum moves |
| Quotas.ProjectedArtifactsExact | go/internal/catalog/sqlite.go:398-436 | the projected artifact count is the count after the commit, replacing by name or not, new row or updated one |
| Quotas.CommitStays | go/internal/catalog/sqlite.go:386-436 | one commit keeps a project within its quota whatever the sizes |
| Quotas.QuotaNeverExceeded | go/internal/catalog/sqlite.go:356-495 | a project filled only by commits never exceeds its quota in any run that also evicts, deletes, touches and drops |
| Quotas.CommitsNeverExceed | go/internal/catalog/sqlite.go:356-495 | for commits alone the same holds without any assumption on sizes |
| Quotas.EvictionNeedsSizes | go/internal/catalog/sqlite.go:517-562 | evicting an entry keeps a full project within its quota if and only if the entry's size is not negative |
| Snapshots.YieldAllIff | go/internal/catalog/sqlite.go:800-870 | a snapshot's inserts all succeed if and only if every entry is of the project, valid, new to it and its blob is recorded; and then they are exactly the source's rows |
| Snapshots.WalkRows | go/internal/catalog/sqlite.go:663-721 | what a walk yielded inserts, key by key, the rows it was read from |
| Snapshots.RollbackRestores | go/internal/catalog/sqlite.go:763-889 | applying what a walk yielded succeeds exactly when HEAD is as expected and every entry is valid with its blob still recorded, and then answers every key as at the checkpoint, whatever ran in between, with other projects untouched |
| Snapshots.RestoredRow | go/internal/catalog/sqlite.go:800-870 | every column of a row that a rollback brings back: hits included, and both times as they were, except that none becomes the time of the rollback |
| Snapshots.BadSourceRefused | go/internal/catalog/sqlite.go:763-870 | an apply is refused exactly for a wrong HEAD, a failing source or a bad row |
| Snapshots.ApplyKeepsForeignKeys | go/internal/catalog/sqlite.go:763-889 | an apply leaves the other projects' rows and the source's, and no foreign key broken |
| Lru.EntryCache.Get | go/internal/catalog/cache.go:35-43 | returns the recency sequence's entry for the key and moves it to the front |
| Lru.EntryCache.Put | go/internal/catalog/cache.go:44-55 | the list is the recency sequence with the entry in front, cut to capacity |
| Lru.EntryCache.Drop | go/internal/catalog/cache.go:56-64 | removes exactly this key from list and map |
| Lru.EntryCache.DropProject | go/internal/catalog/cache.go:65-73 | deleting from the map while ranging over it removes exactly the project's keys and keeps the order of the rest |
| Lru.EntryCache.EvictOldest | go/internal/catalog/cache.go:74-82 | removes the back of the list, if there is one |
| Lru.RunShape | go/internal/catalog/cache.go:24-83 | after any run the keys are distinct and no more than the capacity |
| Lru.ResidentIsLastPut | go/internal/catalog/cache.go:35-73 | a resident entry is the last one put for its key, never one put before a drop |
| Lru.AheadWasTouched | go/internal/catalog/cache.go:35-55 | as long as a key is untouched, what is ahead of it was touched since, or capacity other keys were |
| Lru.EvictionTakesCapacity | go/internal/catalog/cache.go:44-82 | a key is evicted only after at least capacity distinct other keys were touched since its own last touch |
| Series.BucketFloors | go/internal/catalog/series.go:11-25 | Bucket is the floor for every time, before 1970 too |
| Folds.FoldMoves | go/internal/catalog/series.go:393-416 | moving rows one at a time in any order comes to the INSERT ... SELECT ... GROUP BY and its DELETE |
| Folds.FoldBalance | go/internal/catalog/series.go:393-416 | a fold takes traffic out of a window only across its upper end and into it only across its lower end |
| Series.FoldConservesIff | go/internal/catalog/series.go:393-416 | a fold conserves count and bytes of every line in every window aligned to the coarser span if and only if no expired row with traffic lies misaligned before 1970 |
| Series.SeriesStore.RecordSeries | go/internal/catalog/series.go:30-83 | adds each delta to its five-minute row, all or none |
| Series.SeriesStore.FoldRows | go/internal/catalog/series.go:393-416 | the loop over rows computes the fold |
| Series.SeriesStore.CompactSeries | go/internal/catalog/series.go:379-431 | leaves what its first transactions leave, when one fails |
| Series.RunConserves | go/internal/catalog/series.go:372-431 | over every run of recordings and compactions, cut short anywhere, a window of whole days that nothing expired from holds what it held plus what was recorded in it |
| Series.ResumeIsExact | go/internal/catalog/series.go:372-378 | a compaction stopped after any of its transactions and run again comes to exactly one that never stopped |
| Series.TiersPartitionTime | go/internal/catalog/series.go:380-404 | if the clock never goes back and no delta is older than the last fold, every row starts on its span's grid and no moment is covered by two tiers |
| SeriesAges.YoungRowsStay | go/internal/catalog/types.go:260-264 | no compaction removes a five-minute row of the last 172800 seconds, an hour of the last 2592000 or a day of the last 63072000, and those five-minute rows keep their figures |
| SeriesAges.OldRowsGo | go/internal/catalog/series.go:379-431 | a whole compaction leaves no row that has outlasted its resolution by a span of the next one, and no day past 63072000 seconds |
| SeriesAges.OldRowsFold | go/internal/catalog/series.go:393-416 | what has is a row of the next resolution: of the hour, or the day, that it began in |
| SeriesAges.TwoYearsKept | go/internal/catalog/series.go:379-431 | whole days of the last 63072000 seconds keep count and bytes of every line through a compaction |
| BlobWriter.Writer.constructor | go/internal/blob/writer.go:30-36 | a new writer's file is empty, unsynced and no blob's |
| BlobWriter.Writer.Write | go/internal/blob/writer.go:39-54 | hash state and count see exactly the bytes that reached the file, short writes included; after close nothing changes |
| BlobWriter.Writer.Commit | go/internal/blob/writer.go:95-168 | success publishes the digest of exactly the bytes written as a complete, synced file; a name that was there keeps its inode and bytes; a failure publishes nothing unless only the directory sync failed; the staging file is gone |
| BlobWriter.Writer.Abort | go/internal/blob/writer.go:172-182 | discards the staging file, and does nothing after a commit |
| BlobCommit.StepKeeps | go/internal/blob/writer.go:39-168 | every step of every writer, deletion and crash keeps: what a name may be is complete bytes with that hash, synced |
| BlobCommit.NamesAreComplete | go/internal/blob/writer.go:69-78 | at every point of every run, a name under a digest, now or after a crash there, is a whole file with that hash |
| BlobCommit.InodeStays | go/internal/blob/writer.go:75-78 | while a name exists its inode stays, and a published file's bytes never change |
| BlobCommit.LinkedCommitIsCertain | go/internal/blob/writer.go:134-147 | a commit that linked and synced has left no crash that loses the name |
| BlobCommit.CommittedBlobSurvives | go/internal/blob/writer.go:134-154 | such a blob is there, complete, under the same inode after any run that does not delete it, crashes included |
| BlobCommit.ExistingCommitSurvivesIff | go/internal/blob/writer.go:138-159 | what a commit that found its content there reports as stored is still there after every later run without its deletion, crashes included, if and only if since the last link that made the name some writer has linked in that directory and synced it, or a crash has come |
| BlobCommit.ExistingCommitLost | go/internal/blob/writer.go:134-159 | a run in which a successful commit is lost to a crash with nothing deleted |
| BlobGc.StepKeeps | go/internal/blob/store.go:155-165 | every step of catalog, writers and collector keeps every named, pinned and leased blob present |
| BlobGc.RemoveKeeps | go/internal/blob/store.go:256-273 | what DeleteIf removes is named by no queued, in-flight or stored entry, pinned by nothing and under nobody's grace period |
| BlobGc.GarbageGoes | go/internal/maintenance/service.go:54-110 | a blob that nothing names or pins and that is out of its grace period can be collected: flush, query and removal all go through, and take that blob only |
| BlobGc.NoDanglingIff | go/internal/maintenance/service.go:54-110 | in no interleaving does an entry name a missing blob, if and only if evictions' callbacks recheck the age, or every link is made inside WithBlob, or there is no grace period to link within |
| BlobGc.YoungBlobCollected | go/internal/maintenance/service.go:211-231 | the run that leaves a dangling entry when none holds: an eviction leaves a blob unreferenced, it is committed again, and the eviction's DeleteIf takes it before its new entry is linked |
| RateLimit.RateLimiter.Allow | go/internal/app/ratelimit.go:31-57 | one call refills, caps, spends or refuses exactly as the bucket rule says, on a table pruned only for a new key |
| RateLimit.RateLimiter.Prune | go/internal/app/ratelimit.go:59-80 | a full table loses its stale buckets, and one more if that made no room |
| RateFloor.FreshKeyAdmitted | go/internal/app/ratelimit.go:34-45 | a key without a bucket is admitted and left its burst less one, or its rate less one if it has no burst; a rate of zero or less admits everything and keeps no bucket |
| RateFloor.AdmittedIffWithin | go/internal/app/ratelimit.go:31-57 | from a key's first request on, its limits steady and its bucket unpruned, on any clock: a request is admitted if and only if with it no window that began with a request of the key holds more than burst plus rate times the seconds since |
| RateFloor.BurstIsGranted | go/internal/app/ratelimit.go:31-57 | on a clock that does not go back a new key's first requests, as many as its burst (or its rate, if it has none), are all admitted, whatever their times |
| RateFloor.PruneSpares | go/internal/app/ratelimit.go:59-80 | below 65536 buckets nothing is pruned; from there on every bucket ten minutes old goes, and of the rest at most one, and only when 65536 are left |
| RateLimit.RateBound | go/internal/app/ratelimit.go:31-57 | from a request of a key through an admitted one, no more are admitted than burst plus rate times the time between, however the times are ordered, while the key's rate and burst stay and its bucket is not pruned |
| RateLimit.RateBoundThroughPrunes | go/internal/app/ratelimit.go:31-68 | under a clock that does not go back the same bound holds when the key's bucket is dropped as stale any number of times, if ten minutes and a tick refill its burst |
| RateLimit.LimitsRaised | go/internal/app/ratelimit.go:37-49 | a run that passes the bound of the limits before and after it, through a request under higher ones |
| RateLimit.VictimStartsAfresh | go/internal/app/ratelimit.go:41-45 | a run that passes the bound because a full table lost the key's bucket |
| RateLimit.BackwardClock | go/internal/app/ratelimit.go:46-48 | a run that passes the bound because a clock set back made the key's bucket look stale |
| RateLimit.TableNeverExceeds | go/internal/app/ratelimit.go:59-80 | the table never holds more than 65536 keys |
| RateLimit.RetryHintIsSound | go/internal/app/ratelimit.go:50-56 | after a refusal the key is admitted once the returned delay has passed, and refused a millisecond or more before that |
| RateLimit.RetryAfterCovers | go/internal/app/ratelimit.go:95-101 | the header's whole seconds cover the delay and exceed it by less than one |
| RateLimit.StalePruneIsInvisibleIff | go/internal/app/ratelimit.go:63-68 | dropping stale buckets changes no answer if and only if ten minutes and a tick refill the burst |
| RateLimit.VictimIsOldestIff | go/internal/app/ratelimit.go:72-79 | the bucket a full table loses is a least recently used one, in every iteration order, if and only if the empty key is absent, alone or tied |
| RateLimit.IdentitiesLoseOldest | go/internal/app/dataplane.go:335-342 | in every run of the data plane's identities, which all hold a NUL, it is always a least recently used one |
| Glob.GlobEscape | go/internal/catalog/sqlite.go:1570-1584 | the escaped prefix and a star match exactly the strings that start with the prefix |
| Glob.EscapedPrefixIsLiteral | go/internal/catalog/sqlite.go:626-628 | against a full GLOB matcher with star, question mark and sets, for every string |
| Glob.LiteralIff | go/internal/catalog/sqlite.go:966-969 | that holds for a prefix if and only if it has no NUL |
| Schema.Database.Migrate | go/internal/catalog/schema.go:197-234 | the loop does what the migrations from the recorded version on do, one transaction each, and a newer version is refused |
| Schema.Database.Transaction | go/internal/catalog/schema.go:215-231 | a migration's statements and its version row, or nothing |
| Schema.PrefixMigrates | go/internal/catalog/schema.go:194-234 | from any prefix of the list each commit applies the next migration, and a current database is left as it is |
| Schema.ResumeReachesLatest | go/internal/catalog/schema.go:11-13 | through any number of interrupted calls a full one reaches exactly what applying every migration once produces |
| Schema.OlderBinary | go/internal/catalog/schema.go:206-209 | an older binary refuses a newer database untouched, and what it leaves half done the newer one completes |
| Schema.ReleasedWellFormed | go/internal/catalog/schema.go:14-189 | the three released migrations run through in order |
| Schema.ColumnWithoutRow | go/internal/catalog/schema.go:176-187 | without one transaction for both, a column added but not recorded would bar every later start |
| UvScripts.SedPattern | go/internal/dockerfile/uv.go:56-65 | the loop escapes character by character |
| Sed.ParseEscaped | go/internal/dockerfile/uv.go:55-65 | sed reads an escaped literal as itself |
| UvScripts.ScriptsRead | go/internal/dockerfile/uv.go:42-51 | sed reads a host's four scripts as the four substitutions |
| UvScripts.LockSed | go/internal/dockerfile/uv.go:39-53 | the shell and sed read in the two argument strings, in order, each host's commands to lend and to hand back |
| UvPasses.PassIsFieldwise | go/internal/dockerfile/uv.go:39-53 | scanning a line for a pattern and rewriting its quoted fields one by one come to the same line |
| UvHosts.FieldExactIff | go/internal/dockerfile/uv.go:39-53 | lent by all commands and handed back by all, a field is as it was if and only if it is clean, for every address of the cache, one under a listed host included |
| UvHosts.EarlierNeverReturns | go/internal/dockerfile/uv.go:39-53 | an address on a host listed before the cache's own is lent twice and never comes back |
| UvHosts.HomeExactIff | go/internal/dockerfile/uv.go:39-53 | when an address on the cache's own host comes back |
| UvLock.HandBackIsExactIff | go/internal/dockerfile/uv.go:36-38 | a lock lent and handed back is the lock it was, byte for byte, if and only if each line holds `source = ` or has only clean addresses; if the cache's own address holds `source = `, or has none to lend |
| UvLock.OrdinaryLockComesBackIff | go/internal/dockerfile/uv.go:83-85 | a lock with no address at the cache already and no query in a listed host's address comes back if and only if it is clear of the cache's own host, always when the cache is on no listed host |
| UvLock.EarlierIsLost | go/internal/dockerfile/uv.go:39-53 | a line with an address on a host listed before the cache's own does not come back |
| UvLock.LentTwice | go/internal/dockerfile/uv.go:39-53 | one such file, for a cache on flashinfer.ai |
| UvLock.SourceLinesNeverChange | go/internal/dockerfile/uv.go:30-33 | neither sed call changes a line with `source = ` |
| UvLent.LentLine | go/internal/dockerfile/uv.go:30-53 | while lent to a cache on none of the five hosts, a line of clean addresses has the cache's address for each of its addresses on them, with the sha256 beside it as a query, and is otherwise the line it was |
| RunFlags.SplitRunFlags | go/internal/dockerfile/uv.go:178-204 | every character is kept, what is split off is whole words with two dashes and blanks around them, and the command starts with neither blank nor flag |
| RunFlags.SplitsContinuationIff | go/internal/dockerfile/uv.go:199-202 | a continued line end is split between backslash and newline if and only if the text starts with flags of which the last is written right up to that backslash |
| RunFlags.ContinuationCosts | go/internal/dockerfile/uv.go:183-202 | after flags, a blank and a continued line end the flags after it are read on; after flags and a continued line end directly, all that follows is the command, flags included |

## Left out

- SQLite itself, WAL, connection pools, DSN handling and SQL text: tables are maps and a transaction is one step. GLOB's limit on the length of a pattern and its index optimisation are not modelled.
- Row order of walks, paging and listings; artifact `extra`; access and traffic tallies; inventory and age histograms: reporting only.
- Integer width: sizes, sums and times are unbounded, so int64 overflow and the saturation of Go durations are not modelled.
- FlusherReads.LayeredReadAgrees: the read is one step there; `GetAnswersHeld` is about reads among other steps. A key whose transaction has not reached the cache is excepted.
- CatalogDb.DB.constructor: does not model the migration, the pools and the background loop that opening a store starts; `Schema` is about the migration.
- CatalogDb.DB.Close: does not model the wait for the background loop, which `Flusher` runs as one more caller of Flush.
- CatalogDb.DB.ApplySnapshot: does not model the inventory rows that an indexed apply inserts beside the entries.
- CatalogDb.DB.WalkEntries: does not model the order of the rows, nor an error returned by the caller's function, which ends the walk early.
- Series.SeriesStore.RecordSeries: does not model the upstream rows written in the same transaction.
- Series.SeriesStore.CompactSeries: does not model the expiries of the upstream and storage series, which come after those of the traffic series.
- The upstream and storage series, `TrafficSeries` and the grouping of its answers: hourly upserts and reads with no fold.
- BlobCommit.CommittedBlobSurvives: the shard directories' own names are taken as durable, although only the shard directory is synced, not its parent.
- BlobGc.NoDanglingIff: the pins are fixed for the run and artifacts and snapshot manifests are not rows of the model; a file's mtime and the process clock are one clock, and `Delete` without a callback does not occur.
- `ImportKnown`, `CommitImported`, directory walks, permissions and managed git directories: filesystem plumbing. `CleanStaging` is a step of `BlobCommit`.
- RateLimit.RateBound: over reals, so floating-point rounding is not modelled.
- Schema.Database.Migrate: columns are names without types, defaults or keys, and an index is checked for its table only.
- UvLock.HandBackIsExactIff: a file is a sequence of lines, so a missing newline at its end and bytes that are not text are not modelled; sed is modelled for the patterns the scripts use, in which every star stands before a character it cannot match.
- The rest of `UVWrapper` and `wrapUV` (shell argument parsing, mounts, finding the lock, uv itself), HTTP handlers, the console, the CLI and the control database.
- Invalid UTF-8, which Go's loops over strings would replace: strings are sequences of characters.
