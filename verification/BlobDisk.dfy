/** The disk under the blob store, as far as a power loss is concerned: a file's bytes are
    certain once it is fsynced, a name once its directory is. */
module BlobDisk {
  import opened Types

  newtype Byte = i: int | 0 <= i < 256

  type Bytes = seq<Byte>

  type Ino = nat

  /** SHA-256 in hex; only that it is a function matters here. */
  type Hash = Bytes -> Digest

  datatype File = File(bytes: Bytes, synced: bool)

  /** `names` is the digest directory as processes see it; `maybe` holds, for each name, every
      state that a crash could leave it in. */
  datatype Disk = Disk(
    files: map<Ino, File>, staging: set<Ino>, names: map<Digest, Ino>, maybe: map<Digest, set<Option<Ino>>>, next: Ino)
  {
    function Current(d: Digest): Option<Ino> {
      if d in names then Some(names[d]) else None
    }

    function Possible(d: Digest): set<Option<Ino>> {
      if d in maybe then maybe[d] else {None}
    }

    function Create(): Disk {
      this.(files := files[next := File([], false)], staging := staging + {next}, next := next + 1)
    }

    function Append(ino: Ino, p: Bytes): Disk {
      if ino in files then this.(files := files[ino := files[ino].(bytes := files[ino].bytes + p)]) else this
    }

    function Fsync(ino: Ino): Disk {
      if ino in files then this.(files := files[ino := files[ino].(synced := true)]) else this
    }

    function Unstage(ino: Ino): Disk {
      this.(staging := staging - {ino})
    }

    function Link(ino: Ino, d: Digest): Disk {
      this.(names := names[d := ino], maybe := maybe[d := Possible(d) + {Some(ino)}])
    }

    function Unlink(d: Digest): Disk {
      this.(names := names - {d}, maybe := maybe[d := Possible(d) + {None}])
    }

    /** fsync of the directory that holds d: what its names are now is what they will be. */
    function SyncDir(d: Digest): Disk {
      this.(maybe := map k | k in maybe.Keys + names.Keys ::
        if Shard(k) == Shard(d) then {Current(k)} else Possible(k))
    }
  }

  /** The two-level shard directory. */
  function Shard(d: Digest): string {
    if |d| < 4 then d else d[..4]
  }

  const EMPTY_DISK := Disk(map[], {}, map[], map[], 0)

  /** What a power loss may leave: every name in one of its possible states, synced bytes as
      they were, other bytes and the staging directory in any state. */
  ghost predicate CrashTo(disk: Disk, after: Disk) {
    && after.files.Keys == disk.files.Keys && after.next == disk.next
    && (forall i :: i in disk.files ==>
          after.files[i].synced == disk.files[i].synced && (disk.files[i].synced ==> after.files[i] == disk.files[i]))
    && after.staging <= disk.files.Keys
    && (forall d :: after.Current(d) in disk.Possible(d) && after.Possible(d) == {after.Current(d)})
  }

  /** A complete file with this digest, safe on disk. */
  ghost predicate Complete(disk: Disk, hash: Hash, d: Digest, i: Ino) {
    i in disk.files && disk.files[i].synced && hash(disk.files[i].bytes) == d
  }

  /** Every name, now and after any crash, is a complete blob or nothing. */
  ghost predicate Sound(disk: Disk, hash: Hash) {
    && (forall i :: i in disk.files ==> i < disk.next)
    && (forall d :: disk.Current(d) in disk.Possible(d))
    && (forall d, i :: Some(i) in disk.Possible(d) ==> Complete(disk, hash, d, i))
  }

  /** No crash can lose or replace the name. */
  predicate Certain(disk: Disk, d: Digest) {
    disk.Possible(d) == {disk.Current(d)}
  }

  // ---- what each effect keeps -----------------------------------------------------------------

  lemma CreateSound(disk: Disk, hash: Hash)
    requires Sound(disk, hash)
    ensures Sound(disk.Create(), hash)
  {
    var after := disk.Create();
    forall d ensures after.Possible(d) == disk.Possible(d) && after.Current(d) == disk.Current(d) {
    }
    forall d, i | Some(i) in after.Possible(d) ensures Complete(after, hash, d, i) {
      assert Some(i) in disk.Possible(d);
      assert Complete(disk, hash, d, i);
    }
  }

  /** Writing to a file that is not synced touches no blob. */
  lemma AppendSound(disk: Disk, hash: Hash, ino: Ino, p: Bytes)
    requires Sound(disk, hash) && ino in disk.files && !disk.files[ino].synced
    ensures Sound(disk.Append(ino, p), hash)
  {
    SameNames(disk, disk.Append(ino, p), hash);
  }

  lemma FsyncSound(disk: Disk, hash: Hash, ino: Ino)
    requires Sound(disk, hash)
    ensures Sound(disk.Fsync(ino), hash)
  {
    SameNames(disk, disk.Fsync(ino), hash);
  }

  /** Names as they were, and complete files left complete. */
  lemma SameNames(disk: Disk, after: Disk, hash: Hash)
    requires Sound(disk, hash) && after.names == disk.names && after.maybe == disk.maybe
    requires after.files.Keys == disk.files.Keys && after.next == disk.next
    requires forall i :: i in disk.files && disk.files[i].synced ==> after.files[i] == disk.files[i]
    ensures Sound(after, hash)
  {
    forall d ensures after.Possible(d) == disk.Possible(d) && after.Current(d) == disk.Current(d) {
    }
    forall d, i | Some(i) in after.Possible(d) ensures Complete(after, hash, d, i) {
      assert Some(i) in disk.Possible(d);
      assert Complete(disk, hash, d, i);
    }
  }

  lemma LinkSound(disk: Disk, hash: Hash, ino: Ino, d: Digest)
    requires Sound(disk, hash) && Complete(disk, hash, d, ino)
    ensures Sound(disk.Link(ino, d), hash)
  {
    var after := disk.Link(ino, d);
    forall k ensures after.Possible(k) == disk.Possible(k) + if k == d then {Some(ino)} else {} {
    }
    forall k ensures after.Current(k) in after.Possible(k) {
      assert disk.Current(k) in disk.Possible(k);
    }
    forall k, i | Some(i) in after.Possible(k) ensures Complete(after, hash, k, i) {
      if Some(i) in disk.Possible(k) {
        assert Complete(disk, hash, k, i);
      }
    }
  }

  lemma UnlinkSound(disk: Disk, hash: Hash, d: Digest)
    requires Sound(disk, hash)
    ensures Sound(disk.Unlink(d), hash)
  {
    var after := disk.Unlink(d);
    forall k ensures after.Possible(k) == disk.Possible(k) + if k == d then {None} else {} {
    }
    forall k ensures after.Current(k) in after.Possible(k) {
      assert disk.Current(k) in disk.Possible(k);
    }
    forall k, i | Some(i) in after.Possible(k) ensures Complete(after, hash, k, i) {
      assert Some(i) in disk.Possible(k);
      assert Complete(disk, hash, k, i);
    }
  }

  lemma SyncDirIs(disk: Disk, d: Digest, k: Digest)
    ensures disk.SyncDir(d).Possible(k) ==
      if Shard(k) == Shard(d) then {disk.Current(k)} else disk.Possible(k)
    ensures disk.SyncDir(d).Current(k) == disk.Current(k)
  {
  }

  lemma SyncDirSound(disk: Disk, hash: Hash, d: Digest)
    requires Sound(disk, hash)
    ensures Sound(disk.SyncDir(d), hash)
  {
    var after := disk.SyncDir(d);
    forall k ensures after.Current(k) in after.Possible(k) {
      SyncDirIs(disk, d, k);
      assert disk.Current(k) in disk.Possible(k);
    }
    forall k, i | Some(i) in after.Possible(k) ensures Complete(after, hash, k, i) {
      SyncDirIs(disk, d, k);
      assert disk.Current(k) in disk.Possible(k);
      assert Some(i) in disk.Possible(k);
      assert Complete(disk, hash, k, i);
    }
  }

  lemma CrashSound(disk: Disk, hash: Hash, after: Disk)
    requires Sound(disk, hash) && CrashTo(disk, after)
    ensures Sound(after, hash)
  {
    forall d, i | Some(i) in after.Possible(d) ensures Complete(after, hash, d, i) {
      assert after.Current(d) == Some(i);
      assert Complete(disk, hash, d, i);
    }
  }
}
